/**
 * The metadata handlers of `routes/file/file_metadata_routes.py` and
 * `routes/file_storage_routes.py` (view, update, generate) and the refresh
 * handler of `routes/file/file_view_routes.py`. The metadata lookup and save,
 * the bucket reads, the metadata extractor and the Notion re-caching are
 * parameters. Both route files import `get_file_metadata` and
 * `update_file_metadata` from `services/storage_service.py`, which defines
 * neither, so their behaviour is known only through these parameters.
 */
module MetadataRoutes {
  import opened Wrappers
  import opened PyText
  import opened Items
  import opened FolderOps
  import Catalogue

  // ---------------------------------------------------------------------------
  // view_metadata
  // ---------------------------------------------------------------------------

  /** The id with every `cache/` removed. */
  function CleanId(fileId: string): string {
    ReplaceAll(fileId, "cache/", "")
  }

  /** A blob name with the `cache/` directory in front loses exactly that prefix. */
  lemma CleanIdDropsDirectory(x: string)
    requires !Contains(x, "cache/")
    ensures CleanId("cache/" + x) == x
  {
    var s := "cache/" + x;
    assert OccursAt(s, "cache/", 0);
    assert Find(s, "cache/") == Some(0);
    assert s[6..] == x;
  }

  /** An id without `cache/` is left as it is. */
  lemma CleanIdOfPlainId(x: string)
    requires !Contains(x, "cache/")
    ensures CleanId(x) == x
  {
  }

  /** The record shown for a missing `auto_metadata`. */
  function DefaultAuto(): (a: AutoMeta)
    ensures a.autoGenerated == Some(false)
    ensures a.summary == a.language == a.contentType == Some("")
    ensures a.themes == a.topics == a.entities == a.keywords == Some([])
  {
    AutoMeta(Some(""), Some(""), Some(""), Some([]), Some([]), Some([]), Some([]), Some(false), map[])
  }

  /** The metadata as the view shows it: `auto_metadata` filled in when missing. */
  function WithDefaultAuto(m: Meta): (r: Meta)
    ensures r.auto.Some?
    ensures m.auto.Some? ==> r == m
    ensures r.(auto := m.auto) == m
    ensures m.auto.None? ==> r.auto == Some(DefaultAuto())
  {
    if m.auto.None? then m.(auto := Some(DefaultAuto())) else m
  }

  /**
   * `view_metadata` of `routes/file/file_metadata_routes.py`: the id is
   * cleaned before the lookup, missing metadata is an error, and the record is
   * shown with the default `auto_metadata` when it has none. The result is the
   * id used and the record shown.
   */
  function ViewMetadata(fileId: string, lookup: string -> Option<Meta>): (r: Result<(string, Meta)>)
    ensures Missing(lookup(CleanId(fileId))) <==> r.Err?
    ensures r.Err? ==> r.error == "No metadata found for this file"
    ensures r.Ok? ==> r.value.0 == CleanId(fileId)
    ensures r.Ok? ==> r.value.1 == WithDefaultAuto(lookup(CleanId(fileId)).value)
  {
    var id := CleanId(fileId);
    var found := lookup(id);
    if Missing(found) then Err("No metadata found for this file")
    else Ok((id, WithDefaultAuto(found.value)))
  }

  /** `view_metadata` of `routes/file_storage_routes.py`: the same, without the cleaning. */
  function ViewStoredMetadata(fileId: string, lookup: string -> Option<Meta>): (r: Result<Meta>)
    ensures Missing(lookup(fileId)) <==> r.Err?
    ensures r.Err? ==> r.error == "No metadata found for this file"
    ensures r.Ok? ==> r.value.auto.Some? && r.value.(auto := lookup(fileId).value.auto) == lookup(fileId).value
    ensures r.Ok? ==> r.value == WithDefaultAuto(lookup(fileId).value)
    ensures r.Ok? && lookup(fileId).value.auto.Some? ==> r.value == lookup(fileId).value
    ensures r.Ok? && lookup(fileId).value.auto.None? ==> r.value.auto == Some(DefaultAuto())
  {
    var found := lookup(fileId);
    if Missing(found) then Err("No metadata found for this file")
    else Ok(WithDefaultAuto(found.value))
  }

  /** For an id without `cache/` the two views show the same record. */
  lemma ViewsAgree(fileId: string, lookup: string -> Option<Meta>)
    requires !Contains(fileId, "cache/")
    ensures ViewStoredMetadata(fileId, lookup).Ok? <==> ViewMetadata(fileId, lookup).Ok?
    ensures ViewMetadata(fileId, lookup).Ok?
            ==> ViewMetadata(fileId, lookup).value == (fileId, ViewStoredMetadata(fileId, lookup).value)
  {
    CleanIdOfPlainId(fileId);
  }

  // ---------------------------------------------------------------------------
  // update_metadata
  // ---------------------------------------------------------------------------

  /** The `auto_metadata` object of an update request; absent keys are `None`. */
  datatype AutoEdit = AutoEdit(
    summary: Option<string>,
    language: Option<string>,
    contentType: Option<string>,
    themes: Option<seq<string>>,
    topics: Option<seq<string>>,
    keywords: Option<seq<string>>,
    entities: Option<seq<string>>)

  /** The JSON body of an update request; absent keys are `None`. */
  datatype Edit = Edit(title: Option<string>, folder: Option<string>, auto: Option<AutoEdit>)

  function Override<T>(stored: Option<T>, given: Option<T>): (r: Option<T>)
    ensures given.Some? ==> r == given
    ensures given.None? ==> r == stored
  {
    if given.Some? then given else stored
  }

  /** An `auto_metadata` with no keys at all. */
  function NoAuto(): AutoMeta {
    AutoMeta(None, None, None, None, None, None, None, None, map[])
  }

  /**
   * The sub-field copy: each whitelisted key present in the request replaces
   * the stored one, and `auto_generated` is set.
   */
  function MergeAuto(a: AutoMeta, e: AutoEdit): (r: AutoMeta)
    ensures r.autoGenerated == Some(true)
    ensures r.other == a.other
  {
    AutoMeta(
      Override(a.summary, e.summary),
      Override(a.language, e.language),
      Override(a.contentType, e.contentType),
      Override(a.themes, e.themes),
      Override(a.topics, e.topics),
      Override(a.keywords, e.keywords),
      Override(a.entities, e.entities),
      Some(true),
      a.other)
  }

  /**
   * The whitelisted partial update. `withFolder` selects the version of
   * `routes/file/file_metadata_routes.py`, which also copies `folder`.
   */
  function Merge(m: Meta, e: Edit, withFolder: bool): (r: Meta)
    ensures r.id == m.id && r.notionId == m.notionId && r.kind == m.kind && r.format == m.format
    ensures r.storagePath == m.storagePath && r.other == m.other
    ensures e.title.None? || e.title == Some("") ==> r.title == m.title
    ensures e.title.Some? && e.title.value != "" ==> r.title == e.title
    ensures withFolder && e.folder.Some? ==> r.folder == e.folder
    ensures !withFolder || e.folder.None? ==> r.folder == m.folder
    ensures e.auto.None? ==> r.auto == m.auto
    ensures e.auto.Some? ==> r.auto.Some? && r.auto.value.autoGenerated == Some(true)
  {
    var title := if e.title.Some? && e.title.value != "" then e.title else m.title;
    var folder := if withFolder then Override(m.folder, e.folder) else m.folder;
    var auto := if e.auto.Some? then Some(MergeAuto(m.auto.GetOr(NoAuto()), e.auto.value)) else m.auto;
    m.(title := title, folder := folder, auto := auto)
  }

  /** Applying the same edit twice changes nothing more. */
  lemma MergeIdempotent(m: Meta, e: Edit, withFolder: bool)
    ensures Merge(Merge(m, e, withFolder), e, withFolder) == Merge(m, e, withFolder)
  {
    var once := Merge(m, e, withFolder);
    if e.auto.Some? {
      var a := once.auto.value;
      assert MergeAuto(a, e.auto.value) == a;
    }
  }

  /**
   * A stored sub-field survives the edit exactly when the request does not
   * name it; the request's value wins otherwise.
   */
  lemma MergeKeepsUnnamedFields(m: Meta, e: Edit, withFolder: bool)
    requires m.auto.Some? && e.auto.Some?
    ensures var a := Merge(m, e, withFolder).auto.value;
      (a.summary == m.auto.value.summary || a.summary == e.auto.value.summary)
      && (e.auto.value.summary.None? ==> a.summary == m.auto.value.summary)
      && (e.auto.value.themes.None? ==> a.themes == m.auto.value.themes)
      && (e.auto.value.keywords.Some? ==> a.keywords == e.auto.value.keywords)
      && a.other == m.auto.value.other
  {
  }

  /** The storage version is the folder version applied to the edit without its folder. */
  lemma MergeVersionsAgree(m: Meta, e: Edit)
    ensures Merge(m, e, false) == Merge(m, e.(folder := None), true)
  {
  }

  /** What an update leaves: the record saved (if any), the folder state, the JSON reply. */
  datatype UpdateReply = UpdateReply(saved: Option<Meta>, state: State, result: Result<()>)

  /** The folder state once the record `m` is saved as the item `fileId`'s metadata. */
  function Saved(st: State, fileId: string, m: Meta): State {
    st.(store := st.store[fileId := m])
  }

  /**
   * `update_metadata` of `routes/file/file_metadata_routes.py`: the merged
   * record is saved (`saveOk` is what the save returned); only after a
   * successful save, and only when the request names a folder, the item is
   * moved to it, re-reading the record just saved; a failed move still
   * reports success.
   */
  function UpdateMetadata(st: State, fileId: string, current: Option<Meta>, e: Edit, saveOk: bool): (r: UpdateReply)
    ensures Missing(current) ==> r == UpdateReply(None, st, Err("No metadata found for this file"))
    ensures !Missing(current) ==> r.saved == Some(Merge(current.value, e, true))
    ensures !Missing(current) && !saveOk ==> r.state == st && r.result == Err("Failed to update metadata")
    ensures r.result.Ok? <==> !Missing(current) && saveOk
    ensures r.result.Ok? && e.folder.None? ==> r.state == Saved(st, fileId, r.saved.value)
    ensures r.result.Ok? && e.folder.Some? ==> r.state == MoveItem(Saved(st, fileId, r.saved.value), fileId, e.folder.value).state
  {
    if Missing(current) then UpdateReply(None, st, Err("No metadata found for this file"))
    else
      var merged := Merge(current.value, e, true);
      if !saveOk then UpdateReply(Some(merged), st, Err("Failed to update metadata"))
      else
        var saved := Saved(st, fileId, merged);
        var st' := if e.folder.Some? then MoveItem(saved, fileId, e.folder.value).state else saved;
        UpdateReply(Some(merged), st', Ok(()))
  }

  /**
   * The folder state changes only after a successful save, and then the store
   * holds exactly the merged record for the item, the move included, and
   * every other item's record as it was.
   */
  lemma UpdateKeepsSavedRecord(st: State, fileId: string, current: Option<Meta>, e: Edit, saveOk: bool)
    ensures var r := UpdateMetadata(st, fileId, current, e, saveOk);
            r.result.Err? ==> r.state == st
    ensures var r := UpdateMetadata(st, fileId, current, e, saveOk);
            r.result.Ok? ==> fileId in r.state.store && Some(r.state.store[fileId]) == r.saved
                             && r.state.store.Keys == st.store.Keys + {fileId}
                             && forall k :: k in st.store && k != fileId ==> r.state.store[k] == st.store[k]
  {
    var r := UpdateMetadata(st, fileId, current, e, saveOk);
    if r.result.Ok? {
      var merged := r.saved.value;
      var saved := Saved(st, fileId, merged);
      if e.folder.Some? {
        var moved := MoveItem(saved, fileId, e.folder.value).state.store;
        assert moved[fileId].(folder := merged.folder) == merged;
        assert moved[fileId].folder == merged.folder;
      }
    }
  }

  /**
   * `update_metadata` of `routes/file_storage_routes.py`: the same merge
   * without the folder, and no move.
   */
  function UpdateStoredMetadata(current: Option<Meta>, e: Edit, saveOk: bool): (r: (Option<Meta>, Result<()>))
    ensures Missing(current) ==> r == (None, Err("No metadata found for this file"))
    ensures !Missing(current) ==> r.0 == Some(Merge(current.value, e, false))
    ensures r.1.Ok? <==> !Missing(current) && saveOk
  {
    if Missing(current) then (None, Err("No metadata found for this file"))
    else
      var merged := Merge(current.value, e, false);
      (Some(merged), if saveOk then Ok(()) else Err("Failed to update metadata"))
  }

  /** Without a folder in the request the two updates save the same record. */
  lemma UpdateVersionsAgree(st: State, fileId: string, current: Option<Meta>, e: Edit, saveOk: bool)
    requires e.folder.None?
    ensures var r := UpdateMetadata(st, fileId, current, e, saveOk);
      && (r.saved, r.result) == UpdateStoredMetadata(current, e, saveOk)
      && r.state == if r.result.Ok? then Saved(st, fileId, r.saved.value) else st
  {
    if !Missing(current) {
      MergeVersionsAgree(current.value, e);
      assert e.(folder := None) == e;
    }
  }

  // ---------------------------------------------------------------------------
  // generate_metadata
  // ---------------------------------------------------------------------------

  /** The content blob of a document, named after the id that follows `metadata_doc_`. */
  function DocumentContentPath(storagePath: string): (r: string)
    requires Contains(storagePath, "metadata_doc_")
  {
    "cache/document_data_" + Catalogue.IdAfter(storagePath, "metadata_doc_").value + ".pkl"
  }

  /** A document's metadata blob leads to its document-data blob. */
  lemma DocumentContentPathOfBlob(id: string)
    requires Catalogue.IsId(id)
    ensures Contains(Catalogue.DocumentMetadataBlob(id), "metadata_doc_")
    ensures DocumentContentPath(Catalogue.DocumentMetadataBlob(id)) == "cache/document_data_" + id + ".pkl"
  {
    var name := Catalogue.DocumentMetadataBlob(id);
    assert Contains(name, "metadata_doc_") by {
      assert name[..19] == "cache/metadata_doc_";
      assert name[6..19] == "cache/metadata_doc_"[6..19];
      assert OccursAt(name, "metadata_doc_", 6);
    }
    assert Catalogue.IdAfter(name, "metadata_doc_") == Some(id) by {
      Catalogue.NoDbMarker("cache/metadata_doc_", id);
      Catalogue.DocumentIdRoundTrip(id);
    }
  }

  /** The content blob of a non-document item with the given extension. */
  function ContentBlob(fileId: string, ext: string): string {
    "cache/content_" + fileId + "." + ext
  }

  /** `text` is what the blob `name` yields. */
  predicate FoundIn(texts: map<string, string>, name: string, text: string) {
    name in texts && texts[name] == text
  }

  /**
   * The text file the handler reads first gives nothing: `content_<id>.txt`
   * exists but is empty, or it is missing and `content_<id>.md` is missing or
   * empty. Only then is the PDF read.
   */
  predicate NothingReadable(fileId: string, texts: map<string, string>) {
    var txt := ContentBlob(fileId, "txt");
    var md := ContentBlob(fileId, "md");
    if txt in texts then texts[txt] == "" else md !in texts || texts[md] == ""
  }

  /**
   * The text the handler finds for an item, from `texts` (the extracted text
   * of each content blob that exists): the document-data blob for documents;
   * otherwise the first of `content_<id>.txt` and `content_<id>.md` that
   * exists, then the PDF when that gave nothing.
   */
  function ContentText(storagePath: string, fileId: string, texts: map<string, string>): (r: string)
    ensures Contains(storagePath, "metadata_doc_")
            ==> r == (if DocumentContentPath(storagePath) in texts then texts[DocumentContentPath(storagePath)] else "")
    ensures !Contains(storagePath, "metadata_doc_") && r != ""
            ==> FoundIn(texts, ContentBlob(fileId, "txt"), r) || FoundIn(texts, ContentBlob(fileId, "md"), r)
                || FoundIn(texts, ContentBlob(fileId, "pdf"), r)
    ensures !Contains(storagePath, "metadata_doc_") && ContentBlob(fileId, "txt") in texts
            && texts[ContentBlob(fileId, "txt")] != ""
            ==> r == texts[ContentBlob(fileId, "txt")]
    ensures !Contains(storagePath, "metadata_doc_") && ContentBlob(fileId, "txt") !in texts
            && ContentBlob(fileId, "md") in texts && texts[ContentBlob(fileId, "md")] != ""
            ==> r == texts[ContentBlob(fileId, "md")]
    ensures !Contains(storagePath, "metadata_doc_") && NothingReadable(fileId, texts)
            ==> r == (if ContentBlob(fileId, "pdf") in texts then texts[ContentBlob(fileId, "pdf")] else "")
  {
    if Contains(storagePath, "metadata_doc_") then
      var p := DocumentContentPath(storagePath);
      if p in texts then texts[p] else ""
    else
      var txt := ContentBlob(fileId, "txt");
      var md := ContentBlob(fileId, "md");
      var pdf := ContentBlob(fileId, "pdf");
      var t := if txt in texts then texts[txt] else if md in texts then texts[md] else "";
      if t == "" && pdf in texts then texts[pdf] else t
  }

  /** An existing but empty `.txt` is still the text read first: the `.md` is never consulted. */
  lemma EmptyTxtShadowsMd(storagePath: string, fileId: string, md: string)
    requires !Contains(storagePath, "metadata_doc_")
    ensures ContentText(storagePath, fileId, map[ContentBlob(fileId, "txt") := "", ContentBlob(fileId, "md") := md]) == ""
  {
    var txt := ContentBlob(fileId, "txt");
    var pdf := ContentBlob(fileId, "pdf");
    assert txt[|txt| - 1] == 't' && pdf[|pdf| - 1] == 'f';
    assert |ContentBlob(fileId, "md")| != |pdf|;
  }

  /**
   * The text generation works on: the content found for the item, or the
   * stored summary when none is found.
   */
  function SourceText(m: Meta, fileId: string, texts: map<string, string>): (r: string)
    requires m.storagePath.GetOr("") != ""
    ensures var found := ContentText(m.storagePath.value, fileId, texts);
            found != "" ==> r == found
    ensures var found := ContentText(m.storagePath.value, fileId, texts);
            found == "" ==> r == (if m.auto.Some? then m.auto.value.summary.GetOr("") else "")
  {
    var text := ContentText(m.storagePath.value, fileId, texts);
    if text == "" && m.auto.Some? && m.auto.value.summary.Some? then m.auto.value.summary.value else text
  }

  /**
   * `generate_metadata` (identical in both route files): the storage path must
   * be set; the content text, else the stored summary, must be non-empty; the
   * extractor's result (`extracted`, `None` when it returned nothing) replaces
   * `auto_metadata`, and the record is saved.
   */
  function GenerateMetadata(current: Option<Meta>, fileId: string, texts: map<string, string>,
                            extracted: Option<AutoMeta>, saveOk: bool): (r: Result<Meta>)
    ensures Missing(current) ==> r == Err("No metadata found for this file")
    ensures !Missing(current) && current.value.storagePath.GetOr("") == ""
            ==> r == Err("File storage path not found in metadata")
    ensures r.Ok? ==> !Missing(current) && extracted.Some? && saveOk
    ensures r.Ok? ==> r.value == current.value.(auto := extracted)
    ensures !Missing(current) && current.value.storagePath.GetOr("") != ""
            && SourceText(current.value, fileId, texts) != "" && extracted.Some? && saveOk
            ==> r == Ok(current.value.(auto := extracted))
    ensures r == Err("Could not extract text content from this file")
            <==> !Missing(current) && current.value.storagePath.GetOr("") != "" && SourceText(current.value, fileId, texts) == ""
  {
    if Missing(current) then Err("No metadata found for this file")
    else
      var m := current.value;
      var sp := m.storagePath.GetOr("");
      if sp == "" then Err("File storage path not found in metadata")
      else
        var text := SourceText(m, fileId, texts);
        if text == "" then Err("Could not extract text content from this file")
        else if extracted.None? then Err("Failed to generate metadata")
        else if !saveOk then Err("Failed to update metadata")
        else Ok(m.(auto := extracted))
  }

  /**
   * Generation succeeds only with some text to work on: content found in the
   * bucket, or else a non-empty stored summary; with neither it fails with the
   * extraction error whatever the extractor would say.
   */
  lemma GenerateNeedsText(current: Option<Meta>, fileId: string, texts: map<string, string>,
                          extracted: Option<AutoMeta>, saveOk: bool)
    requires !Missing(current)
    requires current.value.storagePath.GetOr("") != ""
    requires ContentText(current.value.storagePath.value, fileId, texts) == ""
    requires current.value.auto.None? || current.value.auto.value.summary.GetOr("") == ""
    ensures GenerateMetadata(current, fileId, texts, extracted, saveOk)
         == Err("Could not extract text content from this file")
  {
  }

  // ---------------------------------------------------------------------------
  // refresh_item
  // ---------------------------------------------------------------------------

  /** Which re-caching a refresh ran. */
  datatype Recache = NoRecache | RecachePage | RecacheDatabase

  /**
   * `refresh_item`: the Notion id is required and only pages and databases can
   * be refreshed. `page` and `database` are what re-caching the page or the
   * database returns: its title and chunk or page count, or the error raised.
   * The result is the re-caching that ran and the message reported.
   */
  function RefreshItem(notionId: string, kind: string,
                       page: Result<(string, nat)>, database: Result<(string, nat)>): (r: (Recache, Result<string>))
    ensures notionId == "" ==> r == (NoRecache, Err("No Notion page/database ID provided"))
    ensures notionId != "" && kind != "page" && kind != "database"
            ==> r == (NoRecache, Err("Unknown item type: " + kind))
    ensures notionId != "" && kind == "page" ==> r.0 == RecachePage && (r.1.Ok? <==> page.Ok?)
    ensures notionId != "" && kind == "database" ==> r.0 == RecacheDatabase && (r.1.Ok? <==> database.Ok?)
  {
    if notionId == "" then (NoRecache, Err("No Notion page/database ID provided"))
    else if kind == "page" then
      (RecachePage,
       match page
       case Ok((title, chunks)) =>
         Ok("Successfully refreshed Notion page '" + title + "' with " + NatToString(chunks) + " content chunks!")
       case Err(e) => Err("Error refreshing item: " + e))
    else if kind == "database" then
      (RecacheDatabase,
       match database
       case Ok((title, pages)) =>
         Ok("Successfully refreshed Notion database '" + title + "' with " + NatToString(pages) + " pages!")
       case Err(e) => Err("Error refreshing item: " + e))
    else (NoRecache, Err("Unknown item type: " + kind))
  }

  /** A refresh succeeds exactly when it re-cached something and that re-caching succeeded. */
  lemma RefreshSucceedsIffRecached(notionId: string, kind: string,
                                   page: Result<(string, nat)>, database: Result<(string, nat)>)
    ensures var r := RefreshItem(notionId, kind, page, database);
      r.1.Ok? <==> (r.0 == RecachePage && page.Ok?) || (r.0 == RecacheDatabase && database.Ok?)
  {
  }
}
