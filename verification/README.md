# llog core, modelled in Dafny

llog is a Flask application that stores documents, PDFs and Notion pages in a
cloud bucket and indexes them. It then answers questions about them, reviews
and writes content with language-model agents. This project models the
deterministic logic under that glue and proves properties of it. The bucket,
the item-metadata store, the clock, the Notion API and every language-model
call become parameters or oracles.

What is modelled, one Dafny module per file:

- **Listing** (`listing.dfy`, `items.dfy`): the filter, page-count, clamp and
  slice pipeline of the file routes, with the three clamping variants. Also
  the listing record derived from item metadata and the recursive
  folder-membership predicate.
- **Virtual folders** (`folders.dfy`, `folder_ops.dfy`, `folder_routes.dfy`):
  the folder tree derived from item folders and the set of empty folders. The
  operations are create, ensure, move, rename as a prefix rewrite, and delete,
  which flattens into the parent. The folder handlers add input checks and the
  parent/last-segment split.
- **Catalogue and caches** (`catalogue.dfy`, `ttl_cache.dfy`, `storage.dfy`):
  ids parsed from metadata blob names, and index records built from vector
  blob names in the three cache modules. Also the 60-second cache with its
  stale-while-revalidate decision, and file deletion over a set of blob names.
- **Metadata routes** (`metadata_routes.dfy`): view defaults, the whitelisted
  update merge, the generate error paths and the refresh dispatch.
- **Agents** (`review.dfy`, `query_agent.dfy`, `coordinator.dfy`,
  `query_research.dfy`, `recommendations.dfy`, `chat.dfy`,
  `instruction_parser.dfy`, `notion_utils.dfy`, `multi_agents.dfy`,
  `write_agent.dfy`):
  - review scores and priorities;
  - metadata relevance ranking;
  - the coordinator's plan and task execution;
  - keyword and theme counting;
  - theme grouping;
  - chat-message assembly;
  - the instruction-marker parser;
  - Notion text and title heuristics;
  - delimiter parsing and output clean-up of the multi-agents;
  - the Write agent's prompt parameters and format dispatch.
- **Python semantics** (`wrappers.dfy`, `pytext.dfy`, `pyint.dfy`, `seqs.dfy`,
  `stable_sort.dfy`, `tally.dfy`): `None` and exceptions, and string methods.
  Also floor division, half-even `round`, `int()` truncation, filtered list
  comprehensions, the stable `sorted`, and `Counter.most_common`.

## Model

| member | source | states |
|---|---|---|
| Listing.FolderFilter | routes/file/file_routes.py:57-63 | an empty `folder` parameter means no folder filter; any other value filters by exactly that folder |
| Listing.ApplyFilters | routes/file/file_routes.py:65-71 | an entry is kept iff it matches the case-insensitive title substring (when a title is given) and the exact type (when a type is given); with neither filter the listing is unchanged |
| Listing.FiltersKeepOrder | routes/file/file_routes.py:65-71 | the filters distribute over concatenation, so kept entries stay in listing order |
| Listing.TotalPages | routes/file/file_routes.py:73-75 | one page for no items; otherwise the ceiling of items over `per_page` (`per_page·(tp−1) < n ≤ per_page·tp`); a zero `per_page` with items raises |
| Listing.ClampView | routes/file/file_routes.py:77-81 | the clamped page lies in `[1, total_pages]`, a page below 1 becomes 1, an in-range page is kept |
| Listing.ClampMove | routes/file/file_view_routes.py:243-246 | `min(max(1, page), total_pages)` lies in `[1, total_pages]` and keeps an in-range page |
| Listing.ClampDelete | routes/file/file_view_routes.py:50-52 | the page after a delete is never raised, is lowered to `total_pages` only when beyond it |
| Listing.PageSlice | routes/file/file_routes.py:83-88 | the page is the contiguous run `[(page−1)·per_page, page·per_page)` of the listing, at most `per_page` long, empty for an empty listing |
| Listing.Paginate | routes/file/file_routes.py:73-122 | with positive `per_page` the page lies in `[1, total_pages]` and holds at most `per_page` filtered entries; a zero `per_page` with items yields the default listing (page 1 of 1, 10 per page) |
| Listing.BrowseFolder | routes/file/file_routes.py:49-104 | the `view_files`/`filtered_content` pipeline: page bounds, and every shown entry lies in the requested folder or below it |
| Listing.BrowseAll | routes/file_storage_routes.py:49-101 | the folderless `view_files`: page bounds, and an empty listing shows nothing |
| Listing.BrowseAllIsRootlessBrowse | routes/file_storage_routes.py:63-87 | the folderless handler equals the folder handler called with an empty folder |
| Listing.MoveTable | routes/file/file_view_routes.py:233-251 | the HTMX table after a move: raises iff `per_page` is zero with items; page in `[1, total_pages]`; at most `per_page` entries; no items gives an empty page 1 |
| Listing.DeleteRedirectPage | routes/file/file_view_routes.py:23-64 | the redirect page is never above the requested one, unchanged when the deletion raised, and otherwise at most the new `total_pages` |
| Listing.FirstPagesPrefix | routes/file/file_routes.py:83-88 | pages `1..k` laid end to end are exactly the first `k·per_page` entries |
| Listing.PagesPartition | routes/file/file_routes.py:73-88 | pages `1..total_pages` laid end to end give back the filtered listing |
| Listing.ItemOnItsPage | routes/file/file_routes.py:73-88 | entry `i` appears on page `i // per_page + 1` at offset `i % per_page`, and that page exists |
| Listing.ShowCachedItem | routes/file/file_view_routes.py:82-90 | a record keeps its own id; without one it gets `_storage_path` minus every `cache/` when that is non-empty, else `path` (or `""`). The display path is the storage path minus `cache/`, else the path minus `cache/`, else unchanged |
| Listing.ListCached | routes/file/file_view_routes.py:77-93 | one shown record per present entry, each with an id |
| Listing.ListCachedIsChoose | routes/file/file_view_routes.py:77-93 | the loop and the final `None` filter are the comprehension that shows every present entry and drops the rest |
| Listing.ListCachedMembers | routes/file/file_view_routes.py:77-93 | every shown record is a present entry shown, and every present entry is shown |
| Listing.ListCachedInOrder | routes/file/file_view_routes.py:77-93 | the listing distributes over concatenation; `None` gives nothing and a record gives itself shown, so the order is kept |
| Items.ShownKind | services/utils/cache.py:252 | a document (or an untyped record) with a non-empty `format` is shown with that format; any other type is shown unchanged; the `and`/`or` falls through to the stored type when the format is empty |
| Items.ToEntry | services/utils/cache.py:248-256 | the listing row takes id, title (default `Untitled`) and folder from the record; `folder` and `path` are both the item folder |
| Items.UnderTransitive | services/utils/cache.py:239-244 | folder containment is transitive, so the listing of a folder includes its subfolders' items |
| Items.ChildUnder | services/utils/cache.py:239-244 | `f/name` lies below a non-root folder `f` |
| Items.ListEntries | services/utils/cache.py:218-262 | every non-empty record in the requested folder (or at any depth below it) is listed, and only such records |
| Items.ListEntriesIsComprehension | services/utils/cache.py:218-257 | the listing is the comprehension over bucket order of the records the predicate admits |
| Items.FolderListingIsFilter | services/utils/cache.py:239-244 | listing folder `F` equals listing everything and keeping rows whose folder is `F` or starts with `F/` |
| Items.SubfolderRowsListed | services/utils/cache.py:239-244 | a row listed for a subfolder is listed for every ancestor folder |
| Folders.Segments | services/utils/cache.py:375-379 | the non-empty pieces of a path split on `/`, none containing `/` |
| Folders.SplitJoin | services/utils/cache.py:375 | splitting a `/`-join of `/`-free pieces gives the pieces back |
| Folders.AncestryClosed | services/utils/cache.py:375-391 | every ancestor rebuilt from a path has, as its own ancestors, a prefix of that path's ancestors |
| Folders.ParentAncestryPrefix | services/utils/cache.py:397-421 | the ancestors of the parent of an empty folder are the folder's ancestors without the last one |
| Folders.AddPathParts | services/utils/cache.py:375-391 | the segment loop only appends, and never lists a path twice |
| Folders.AddPathPartsPaths | services/utils/cache.py:375-391 | the segment loop adds exactly the rebuilt paths of the remaining segments |
| Folders.AddAncestry | services/utils/cache.py:375-391 | walking every segment of a folder adds exactly its normalised ancestors, the folder included |
| Folders.AddParentAncestry | services/utils/cache.py:408-421 | walking all but the last segment adds exactly the parent's ancestors |
| Folders.AddItemFolders | services/utils/cache.py:369-391 | the first pass over item folders only appends and keeps paths unique |
| Folders.ItemFoldersPaths | services/utils/cache.py:369-391 | the first pass lists exactly the ancestors of every item folder, and the result is ancestor-closed |
| Folders.EmptyFolderEntry | services/utils/cache.py:397-405 | an empty folder is listed under its raw path |
| Folders.AddEmptyFolder | services/utils/cache.py:394-421 | one empty folder only appends and keeps paths unique |
| Folders.AddEmptyFolders | services/utils/cache.py:394-421 | the second pass only appends and keeps paths unique |
| Folders.EmptyFolderPaths | services/utils/cache.py:394-421 | one empty folder adds itself and its parent's ancestors, unless it is empty or already listed |
| Folders.EmptyFoldersPaths | services/utils/cache.py:394-421 | the second pass adds exactly every non-empty empty folder and its parent's ancestors |
| Folders.SortedPaths | services/utils/cache.py:424 | sorting by path neither adds nor drops a path |
| Folders.FolderTreeContents | services/utils/cache.py:363-430 | the tree lists the root, every ancestor of every item folder, and every empty folder with its parent's ancestors, and nothing else; no path twice; sorted by path |
| FolderOps.CreateFolder | services/utils/cache.py:462-498 | fails iff a non-root parent is not listed; returns `parent/name` (or `name` at the root); an existing folder leaves the state unchanged; otherwise the path joins the empty-folder set and items are untouched |
| FolderOps.CreatedUnderParent | services/utils/cache.py:475 | a folder created under a non-root parent lies below that parent |
| FolderOps.CreatedFolderInTree | services/utils/cache.py:487-496 | after creation the reloaded folder tree lists the new folder |
| FolderOps.EnsureFolder | services/utils/cache.py:504-541 | nothing changes for the root or a listed folder; otherwise exactly the folder's missing ancestors are appended, with no duplicates |
| FolderOps.EnsureFolderAncestors | services/utils/cache.py:504-541 | afterwards every ancestor of the folder is listed |
| FolderOps.UpdateItemFolder | services/utils/cache.py:279-312 | fails iff the record is missing; otherwise only that record's `folder` changes |
| FolderOps.SetFolders | services/utils/cache.py:579-588 | the write loop succeeds iff every target is stored, keeps the key set, and leaves untargeted records alone |
| FolderOps.SetFoldersLands | services/utils/cache.py:579-588 | with distinct stored targets every record ends with its written folder |
| FolderOps.MoveItem | services/utils/cache.py:314-340 | fails iff the item is not stored; otherwise only that item's folder changes, to the target, and the target leaves the empty-folder set |
| FolderOps.MovedItemListed | services/utils/cache.py:314-336 | a moved item is listed in its new folder |
| FolderOps.RemapIsPrefixRewrite | services/utils/cache.py:579-603 | a path at or under the renamed folder has that prefix replaced by the new path and stays under it; any other path is unchanged |
| FolderOps.Writes | services/utils/cache.py:575-588 | one metadata write per affected row |
| FolderOps.RenameFolder | services/utils/cache.py:543-617 | a missing folder, the root, or an existing target raises with no change; success returns `parent/new_name`; the key set is kept |
| FolderOps.DeleteFolder | services/utils/cache.py:619-680 | a missing folder or the root raises with no change; success returns the number of affected rows; the key set is kept |
| FolderOps.WritesTarget | services/utils/cache.py:575-588 | each write from the listing targets a listed item at or under the folder, with the mapped folder |
| FolderOps.WritesDistinct | services/utils/cache.py:575-588 | over a listing without repeats no record is written twice |
| FolderOps.WritesComplete | services/utils/cache.py:575-588 | every listed item at or under the folder is written |
| FolderOps.WritesLand | services/utils/cache.py:575-588 | on a whole-store listing the loop succeeds and moves exactly the items at or under the folder, each to the mapped folder |
| FolderOps.RenameEffect | services/utils/cache.py:565-613 | a rename that passes its checks rewrites exactly the items at or under the old path, remaps the empty folders the same way, and touches nothing outside the prefix |
| FolderOps.ParentNotUnder | services/utils/cache.py:646-647 | the parent of a non-root folder is not at or under it |
| FolderOps.DeleteEffect | services/utils/cache.py:641-676 | a delete that passes its checks moves exactly the items at or under the folder to its parent, counts them, drops the empty folders at or under it, and drops the parent too when something moved |
| FolderOps.DroppedEmpties | services/utils/cache.py:654-666 | the empty-folder update as a single set comprehension |
| FolderOps.DeleteCount | services/utils/cache.py:642-643 | some row is affected iff some stored item is at or under the folder |
| FolderOps.DeleteClearsFolder | services/utils/cache.py:641-676 | after a delete no item and no empty folder remains at or under the deleted folder |
| FolderRoutes.SplitFolderPath | routes/file/folder_management_routes.py:71-72 | the last segment holds no `/`; the parent is everything before the last `/`, or `''` when there is none |
| FolderRoutes.SplitFolderPathReassembles | routes/file/folder_management_routes.py:71-72 | for a path with a `/`, parent + `/` + last segment gives the path back |
| FolderRoutes.SplitFolderPathFlat | routes/file/folder_management_routes.py:71-72 | a path without `/` splits into the root parent and the whole path as name |
| FolderRoutes.SplitFolderPathParent | routes/file/folder_management_routes.py:124 | the handlers' parent is the same parent `rename_folder` and `delete_folder` compute |
| FolderRoutes.SplitFolderPathOfChild | routes/file/folder_management_routes.py:71-72 | splitting `parent/name` for a `/`-free name gives back `parent` and `name` |
| FolderRoutes.CreateRoute | routes/file/folder_management_routes.py:13-53 | an empty name creates nothing and only reports the error; otherwise the state is what `create_folder` leaves; items never change; the redirect goes to the parent folder only when one was given |
| FolderRoutes.RenameRoute | routes/file/folder_management_routes.py:56-95 | a missing path or name changes nothing and reports that both are required; otherwise the state is what `rename_folder` leaves; the redirect goes to the non-empty parent only |
| FolderRoutes.DeleteRoute | routes/file/folder_management_routes.py:108-149 | an empty path is refused before any deletion; otherwise the state is what `delete_folder` leaves, and a success redirects to the parent folder |
| Catalogue.IdAfter | services/llm/cache.py:188 | an id exists iff the marker occurs in the name (`split(marker)[1]` raises otherwise) |
| Catalogue.TieredMetadataId | services/llm/cache.py:187-198 | the id is taken after `metadata_db_` if present, else after `metadata_doc_`, else after `metadata_` |
| Catalogue.PlainMetadataId | services/utils/cache.py:164 | the folder module's key is whatever follows the first `metadata_`, present iff that marker occurs |
| Catalogue.DatabaseIdRoundTrip | services/document/cache/index_cache.py:27-28 | the tiered extraction recovers the id from `cache/metadata_db_<id>.pkl` |
| Catalogue.DocumentIdRoundTrip | services/document/cache/index_cache.py:29-30 | the tiered extraction recovers the id from `cache/metadata_doc_<id>.pkl` |
| Catalogue.PlainIdRoundTrip | services/document/cache/index_cache.py:31-32 | both extractions recover the id from `cache/metadata_<id>.pkl` |
| Catalogue.PlainMetadataIdOfDocument | services/utils/cache.py:164 | the folder module files a PDF's metadata under `doc_<id>`, not under the `<id>` the other two caches use |
| Catalogue.IdAfterMarker | services/llm/cache.py:188-196 | for a blob `<head><id>.pkl` holding the marker once, the extracted id is the rest of the head followed by the id |
| Catalogue.Capped | services/document/cache/index_cache.py:66-67 | `xs[:n]`: at most `n` entries, an absent list gives none, otherwise the first `n` |
| Catalogue.LlmVectorRecord | services/llm/cache.py:204-285 | a record exists iff the name ends in `.pkl` and holds one of the three markers; it keeps the blob name as path; themes ≤ 3, keywords ≤ 5 |
| Catalogue.Classify | services/document/cache/index_cache.py:39-52 | the markers are tried in the order index, database, document; the kind found is the first marker present and the id follows it |
| Catalogue.IndexCacheVectorRecord | services/document/cache/index_cache.py:37-76 | a record exists iff the blob classifies; it carries the id and path; only a document's type is overridden by `format` |
| Catalogue.UtilsVectorRecord | services/utils/cache.py:682-721 | a record exists iff the name ends in `.pkl` and holds `vector_index_`; its type is `page` and its folder the metadata folder or `''` |
| Catalogue.CapitalizedPage | services/document/cache/index_cache.py:54 | `'page'.capitalize()` is `Page` |
| Catalogue.CapitalizedDatabase | services/document/cache/index_cache.py:54 | `'database'.capitalize()` is `Database` |
| Catalogue.CapitalizedDocument | services/document/cache/index_cache.py:54 | `'document'.capitalize()` is `Document` |
| Catalogue.VectorRecordVersionsAgree | services/llm/cache.py:204-285 | the inline version and the `_process_vector_blob` version of the index cache give the same record for every blob |
| Catalogue.UtilsRecordIsPageRecord | services/utils/cache.py:682-721 | the folder module's record is the page record of the other caches plus the folder |
| Catalogue.VectorBlobMarkers | services/llm/cache.py:211-259 | a stored vector blob name holds another kind's marker exactly when it is that kind |
| Catalogue.ClassifyRoundTrip | services/document/cache/index_cache.py:42-50 | kind and id come back out of the name an index is stored under |
| Catalogue.VectorRecordOfBlob | services/llm/cache.py:211-285 | a stored index's record names its item, its kind (a document's `format` when present) and the stored title or `<Kind>: <id[:8]>...` |
| Catalogue.CollectMetadata | services/document/cache/index_cache.py:89-96 | every id that a downloaded blob yields is a key, and each key holds the record of the last listed blob that yields it (a later blob replaces an earlier one) |
| Catalogue.LoadIndexes | services/document/cache/index_cache.py:99-109 | every record comes from a classified vector blob, and every classified blob contributes its record; no more records than blobs |
| Catalogue.LoadIndexesInOrder | services/document/cache/index_cache.py:99-109 | the loader distributes over concatenation, and one blob gives its record or nothing, so the records follow listing order one for one |
| Catalogue.LoadedIndexOfBlob | services/document/cache/index_cache.py:78-109 | every stored vector index appears in the loaded list under its own id |
| TtlCache.Initial | services/llm/cache.py:13-17 | the cache starts with no data and no reload in progress |
| TtlCache.DataOrEmpty | services/llm/cache.py:166 | `data or []`: the cached list when there is one, else the empty list |
| TtlCache.ValidityWindow | services/llm/cache.py:20-23 | filled data stays valid exactly until 60 seconds after its timestamp |
| TtlCache.SyncReload | services/document/cache/index_cache.py:133-155 | a reload in progress returns the cached data and changes nothing. Otherwise a good load is stored with the current time and returned, and a failed load returns `[]` and keeps the old data. The flag is cleared in both cases |
| TtlCache.AsyncReload | services/document/cache/index_cache.py:111-131 | the background reload does the same to the cache and is a no-op while another reload runs |
| TtlCache.Decide | services/document/cache/index_cache.py:167-182 | exactly one branch applies: valid data, expired data, or no data |
| TtlCache.ServeInline | services/llm/cache.py:299-455 | any data is served unchanged, and only expired data starts a background reload. With no data the load runs inline: its list is stored and served, and a failure serves `[]` |
| TtlCache.ServeGuarded | services/document/cache/index_cache.py:157-191 | the same three branches, but with no data the cache goes through the guarded synchronous reload |
| TtlCache.ServeVersionsAgree | services/llm/cache.py:299-455 | with no reload in progress, the two versions serve the same list and leave the same cache |
| TtlCache.ServedTwice | services/document/cache/index_cache.py:157-182 | a second call within 60 seconds of a first load serves the same list from the cache and starts no reload |
| TtlCache.GetFolders | services/utils/cache.py:432-460 | valid folder data is served as is; otherwise the folder list is rebuilt and stored with the current time, a failed rebuild serves `[]` and keeps the old data, and a reload already running serves what is cached |
| TtlCache.FoldersServedTwice | services/utils/cache.py:439-460 | folders rebuilt at one time are served again, unchanged and from the cache, by any call within the 60-second time to live |
| Storage.DeleteEach | services/storage_service.py:73-82 | the loop deletes exactly the candidates that exist and whose deletion does not fail, and reports whether it deleted any |
| Storage.DeleteFile | services/storage_service.py:61-98 | every existing candidate is deleted. The bare id is tried only when no candidate was deleted. `No files found to delete for ID: <id>` is raised exactly when nothing was deleted, and the bucket is then unchanged |
| Storage.DeleteFileErrIffUnchanged | services/storage_service.py:84-98 | the error is raised iff the bucket is left as it was |
| Storage.DeleteFileScope | services/storage_service.py:61-93 | only the nine candidate names are removed, plus the bare id when no candidate was deleted; nothing whose deletion fails is removed |
| MetadataRoutes.CleanIdDropsDirectory | routes/file/file_metadata_routes.py:23 | removing `cache/` from `cache/<name>` gives back `<name>` |
| MetadataRoutes.CleanIdOfPlainId | routes/file/file_metadata_routes.py:23 | an id without `cache/` is left unchanged |
| MetadataRoutes.DefaultAuto | routes/file/file_metadata_routes.py:33-43 | the `auto_metadata` shown for a record without one: not auto-generated, empty texts and lists |
| MetadataRoutes.WithDefaultAuto | routes/file/file_metadata_routes.py:33-43 | a missing `auto_metadata` is filled with the default; nothing else changes, and an existing one is kept |
| MetadataRoutes.ViewMetadata | routes/file/file_metadata_routes.py:18-51 | the lookup uses the cleaned id. It fails exactly when no metadata is found, and otherwise shows the record with a default `auto_metadata` |
| MetadataRoutes.ViewStoredMetadata | routes/file_storage_routes.py:393-420 | missing metadata is the error; otherwise the stored record is shown as it is when it has `auto_metadata`, and with the default block when it has none |
| MetadataRoutes.ViewsAgree | routes/file_storage_routes.py:393-420 | for ids without `cache/` the two views succeed together and show the same record |
| MetadataRoutes.Override | routes/file/file_metadata_routes.py:85-91 | a key given in the request replaces the stored value; an absent key keeps it |
| MetadataRoutes.MergeAuto | routes/file/file_metadata_routes.py:81-94 | only the seven whitelisted sub-fields can change; unknown keys are kept and `auto_generated` becomes true |
| MetadataRoutes.Merge | routes/file/file_metadata_routes.py:71-94 | the identity, kind, format, storage path and unknown fields are never changed. A non-empty title replaces the title. The folder is copied only by the folder-aware version. An `auto_metadata` in the request sets `auto_generated` |
| MetadataRoutes.MergeIdempotent | routes/file/file_metadata_routes.py:71-94 | applying the same edit twice gives the same record as applying it once |
| MetadataRoutes.MergeKeepsUnnamedFields | routes/file/file_metadata_routes.py:85-91 | a stored sub-field survives exactly when the request does not name it |
| MetadataRoutes.MergeVersionsAgree | routes/file_storage_routes.py:426-470 | the storage version of the merge equals the folder version applied to the edit with its folder removed |
| MetadataRoutes.UpdateMetadata | routes/file/file_metadata_routes.py:58-113 | missing metadata is an error. The merged record is saved, and the call succeeds iff the save does. After a successful save the item is moved to the requested folder, the move re-reading the record just saved; without a folder the saved record is all that changes |
| MetadataRoutes.UpdateKeepsSavedRecord | services/utils/cache.py:279-336 | a failed update leaves the folder state alone; a successful one leaves exactly the merged record under the item, the move included, and every other record as it was |
| MetadataRoutes.UpdateStoredMetadata | routes/file_storage_routes.py:426-470 | the same update without the folder and without a move |
| MetadataRoutes.UpdateVersionsAgree | routes/file_storage_routes.py:426-470 | without a folder in the request, both updates save the same record and report the same result, and the state holds the saved record |
| MetadataRoutes.DocumentContentPathOfBlob | routes/file/file_metadata_routes.py:146-148 | a document's metadata blob `cache/metadata_doc_<id>.pkl` leads to `cache/document_data_<id>.pkl` |
| MetadataRoutes.ContentText | routes/file/file_metadata_routes.py:141-216 | a document reads its document-data blob. Otherwise an existing `.txt` is read, even when empty, and the `.md` only when no `.txt` exists; the PDF is read exactly when that gave no text, and nothing found is `""` |
| MetadataRoutes.EmptyTxtShadowsMd | routes/file/file_metadata_routes.py:168-188 | an empty `.txt` ends the search: a non-empty `.md` beside it is not read |
| MetadataRoutes.GenerateMetadata | routes/file/file_metadata_routes.py:120-257 | missing metadata and a missing storage path are the first two errors; the extraction error comes exactly when neither content nor a stored summary gives text. With text, an extraction result and a save the result is the record with `auto_metadata` replaced and nothing else; success needs all three |
| MetadataRoutes.GenerateNeedsText | routes/file/file_metadata_routes.py:218-224 | with no content text and no stored summary, generation fails with the extraction error |
| MetadataRoutes.RefreshItem | routes/file/file_view_routes.py:136-180 | a missing Notion id is reported first, then an unknown type. A page or database is re-cached, and the refresh succeeds iff that re-caching does |
| MetadataRoutes.RefreshSucceedsIffRecached | routes/file/file_view_routes.py:154-180 | a refresh succeeds exactly when a re-caching ran and succeeded |
| Review.Validate | services/llm/Agents/Review.py:26-48 | content is reviewable iff it has at least 50 characters once stripped. Blank content gets the empty message, and shorter content gets the too-short message |
| Review.StyleScore | services/llm/Agents/Review.py:84-94 | with strengths `s` or weaknesses `w` the score is `max(1, round(10·s/(s+w)))` with half-even rounding, and lies in [1, 10] so the `min(10, …)` never cuts. With none it is 1 for content over 200 characters, else 0 |
| Review.StyleScoreExtremes | services/llm/Agents/Review.py:91 | strengths alone give 10, and weaknesses alone give 1 |
| Review.AccuracyScore | services/llm/Agents/Review.py:134-146 | the score is the rounded ten-fold share of accurate statements, with questionable ones counting half, and lies between 0 and 10. With no statements it is 1 for long content, else 0 |
| Review.AccuracyScoreMonotone | services/llm/Agents/Review.py:142-144 | one more incorrect statement never raises the accuracy score |
| Review.SeoScore | services/llm/Agents/Review.py:182-190 | the model's SEO score is kept, except that 0 becomes 1 for content over 200 characters |
| Review.OverallScore | services/llm/Agents/Review.py:235-247 | the rounded mean of the positive component scores; 1 for long content whose scores sum to 0; 0 when no score is positive |
| Review.OverallBetween | services/llm/Agents/Review.py:243-247 | the overall score lies between the least and the greatest positive component score |
| Review.Priorities | services/llm/Agents/Review.py:275-290 | the list holds the writing, fact and SEO blocks in that order, cut to five entries |
| Review.PriorityEntries | services/llm/Agents/Review.py:278-283 | writing entries appear only for a style score below 7 and only in the first two places; fact entries appear only for an accuracy score below 7 |
| Review.ReviewWriting | services/llm/Agents/Review.py:50-94 | short content or no answer gives the empty report scored 0; otherwise the report holds the model's strengths, weaknesses and suggestions and the style score of their counts |
| Review.ReviewFacts | services/llm/Agents/Review.py:96-146 | short content or no answer gives the empty report scored 0; otherwise the report holds the model's questionable and incorrect statements and verification list, and the accuracy score of the three counts |
| Review.ReviewSeo | services/llm/Agents/Review.py:148-190 | short content or no answer gives the empty report scored 0; otherwise the report holds the model's suggestions and its score, with 0 raised to 1 for long content |
| Review.ReviewComprehensive | services/llm/Agents/Review.py:192-292 | the comprehensive report holds the three single reviews, their overall score and the priority list built from their scores and suggestions, at most five long |
| Review.ShortContentScoresZero | services/llm/Agents/Review.py:393-398 | content under 100 stripped characters never reaches the model, and every score of its review is 0 with no priorities |
| Review.ComprehensiveScoreBound | services/llm/Agents/Review.py:235-247 | when the model's SEO score is out of 10, so is the overall score |
| Review.KindOf | services/llm/Agents/Review.py:478-480 | any review type besides `writing`, `fact_check` and `seo` is comprehensive |
| Review.RunReview | services/llm/Agents/Review.py:450-484 | the review fails iff validation fails, with its message; otherwise it is exactly the writing, fact-check, SEO or comprehensive review the type names |
| Review.UnknownTypeIsComprehensive | services/llm/Agents/Review.py:477-480 | an unknown review type gives exactly the comprehensive review |
| Review.PromptContent | services/llm/Agents/Review.py:307-311 | content of up to 4000 characters is quoted whole. Longer content is cut to its first 4000 characters, followed by the truncation note |
| QueryAgent.ListValues | services/llm/agents/query_agent.py:68-74 | only the non-empty values of a list field enter the search text |
| QueryAgent.ImportantFields | services/llm/agents/query_agent.py:53-76 | the fields are non-empty, and a non-empty title comes first, lower-cased |
| QueryAgent.MetaText | services/llm/agents/query_agent.py:78-83 | the search text is the fields joined by spaces, or the lower-cased whole record when there are no fields |
| QueryAgent.Matched | services/llm/agents/query_agent.py:92-105 | the count of distinct query terms found in the text: it reaches the term count iff every term occurs, and is 0 iff none does |
| QueryAgent.Coverage | services/llm/agents/query_agent.py:117-121 | the bonus is `int(5·matched/terms)`: the largest `b` with `b·terms ≤ 5·matched`, so between 0 and 5; 0 without terms or matches |
| QueryAgent.Score | services/llm/agents/query_agent.py:92-121 | the score is the matched-term count plus the coverage bonus, plus 10 when the whole lower-cased query occurs and 5 when a three-word phrase does; it lies between the matched count and the term count plus 20 |
| QueryAgent.ScorePositive | services/llm/agents/query_agent.py:95-126 | an index is kept iff a term, the whole query or a three-word phrase matched; fewer than three distinct terms never earn the phrase bonus |
| QueryAgent.FullCoverage | services/llm/agents/query_agent.py:118-121 | matching every term earns the full coverage bonus of 5 |
| QueryAgent.Scored | services/llm/agents/query_agent.py:37-47 | every index with metadata is scored against its own metadata, in the given order; indexes without metadata are skipped |
| QueryAgent.Positive | services/llm/agents/query_agent.py:125-132 | exactly the matches with a positive score are kept |
| QueryAgent.PermutationKeepsPositive | services/llm/agents/query_agent.py:138 | reordering the kept matches keeps every score positive |
| QueryAgent.SearchIndexes | services/llm/agents/query_agent.py:27-151 | a missing or empty id list is the error. A result lists only positive scores, sorted highest first, and its top entries are the first five of that list |
| QueryAgent.SearchCompleteness | services/llm/agents/query_agent.py:137-151 | the ranked list is a permutation of the positive-score matches, and "no match" is reported iff there are none |
| QueryAgent.TopIsBest | services/llm/agents/query_agent.py:138-146 | no match scores higher than the first reported one |
| QueryAgent.EqualScoresKeepOrder | services/llm/agents/query_agent.py:138 | matches with equal scores keep the order the ids were given in |
| Coordinator.AnalyzeRequest | services/llm/MultiAgents/CoordinatorAgent.py:86-122 | a parsed plan is used as it is. A reply without JSON, or an error, gives a single WritingAgent task on the raw request |
| Coordinator.SortTasks | services/llm/MultiAgents/CoordinatorAgent.py:194 | the sorted plan is a permutation of the tasks in non-decreasing priority, and a missing priority counts as 999 |
| Coordinator.SortTasksStable | services/llm/MultiAgents/CoordinatorAgent.py:194 | tasks of equal priority keep their order in the analysis |
| Coordinator.AssignIds | services/llm/MultiAgents/CoordinatorAgent.py:197-199 | every task ends with an id. A given id is kept, and a missing one becomes `task_<position+1>` |
| Coordinator.AssignIdsIdempotent | services/llm/MultiAgents/CoordinatorAgent.py:197-199 | assigning ids a second time changes nothing |
| Coordinator.GeneratedIdsDistinct | services/llm/MultiAgents/CoordinatorAgent.py:199 | two generated ids never coincide |
| Coordinator.Plan | services/llm/MultiAgents/CoordinatorAgent.py:193-199 | the plan the coordinator runs has one task per analysis task, each with an id, in priority order |
| Coordinator.Placeholders | services/llm/MultiAgents/CoordinatorAgent.py:151-152 | the keys are exactly the placeholders: each is a non-empty word of `[a-zA-Z0-9_]` whose braced form occurs, and every braced word occurring at any position yields its key |
| Coordinator.PlaceholdersFrom | services/llm/MultiAgents/CoordinatorAgent.py:151 | the scan from a position finds only braced words that occur in the text |
| Coordinator.PlaceholdersComplete | services/llm/MultiAgents/CoordinatorAgent.py:151 | every braced word occurring at or after a position is found by the scan from there |
| Coordinator.Substitute | services/llm/MultiAgents/CoordinatorAgent.py:152-156 | when none of the keys occurs braced in the text, the replacement loop leaves it unchanged |
| Coordinator.SubstituteOnlyKnown | services/llm/MultiAgents/CoordinatorAgent.py:152-156 | placeholders without a result are left alone: substituting only the known keys gives the same text |
| Coordinator.SubstituteNoResults | services/llm/MultiAgents/CoordinatorAgent.py:152-156 | with no results for its keys, the instruction is unchanged |
| Coordinator.ExecuteTask | services/llm/MultiAgents/CoordinatorAgent.py:124-174 | a missing or unregistered agent gives `Agent <name> not registered`; a registered one runs on the substituted instruction, and its output is the success and its error the failure |
| Coordinator.UnregisteredRunsNothing | services/llm/MultiAgents/CoordinatorAgent.py:142-148 | a task for an unregistered agent has the same outcome whatever the agents would do |
| Coordinator.Step | services/llm/MultiAgents/CoordinatorAgent.py:205-231 | each task adds its record under its id, and `results` keeps holding the output of every task recorded as a success |
| Coordinator.StepSkipsIffDepsUnmet | services/llm/MultiAgents/CoordinatorAgent.py:210-231 | a task is recorded as skipped iff one of its dependencies has no success record |
| Coordinator.StepResults | services/llm/MultiAgents/CoordinatorAgent.py:218-224 | `results` grows only by the output of a task that succeeded in that step |
| Coordinator.RunTasks | services/llm/MultiAgents/CoordinatorAgent.py:205-231 | after the loop, exactly the plan's ids have records, and the success outputs are in `results` |
| Coordinator.FirstSuccess | services/llm/MultiAgents/CoordinatorAgent.py:271-275 | the scan stops at the first task recorded as a success |
| Coordinator.Chosen | services/llm/MultiAgents/CoordinatorAgent.py:270-275 | the task chosen succeeded and no successful task has a larger priority value; among the tasks of its priority it is the first success in plan order. None is chosen iff no task succeeded |
| Coordinator.FirstSuccessFiltered | services/llm/MultiAgents/CoordinatorAgent.py:271-275 | keeping only some tasks, the first success is still the first success when the filter keeps it |
| Coordinator.FirstSuccessIsMax | services/llm/MultiAgents/CoordinatorAgent.py:271 | in the descending sort, the first success has the largest priority value among the successes |
| Coordinator.SuccessOutputs | services/llm/MultiAgents/CoordinatorAgent.py:283-285 | the fallback collects the output of every successful task and nothing else, so with no successes it is empty |
| Coordinator.Combine | services/llm/MultiAgents/CoordinatorAgent.py:270-290 | the chosen task's output when it has one; otherwise the success outputs joined by blank lines, or the failure message when no task succeeded |
| Coordinator.ProcessRequest | services/llm/MultiAgents/CoordinatorAgent.py:176-240 | the request is analysed once, and exactly the plan's task ids get records |
| Coordinator.ProcessRequestAnswer | services/llm/MultiAgents/CoordinatorAgent.py:277-290 | with no successful task the answer is the fixed failure message; otherwise it is the output of the chosen task |
| Coordinator.DefaultPlanAnswer | services/llm/MultiAgents/CoordinatorAgent.py:94-122 | without a usable analysis the answer is the WritingAgent's output on the raw request, or the failure message when the agent is missing or fails |
| QueryResearch.Relevance | services/llm/Agents/QueryResearch.py:84-99 | relevance is 0 without a positive maximum; otherwise it lies between 0.4 and 1 for counts up to the maximum, and equals 1 at the maximum |
| QueryResearch.RelevanceMonotone | services/llm/Agents/QueryResearch.py:99 | a larger count never has a smaller relevance |
| QueryResearch.MaxCount | services/llm/Agents/QueryResearch.py:128 | `max(counter.values())` bounds every count and is attained |
| QueryResearch.Scrub | services/llm/Agents/QueryResearch.py:118 | every character that is neither a word character nor whitespace becomes a space; the length is kept |
| QueryResearch.KeywordWords | services/llm/Agents/QueryResearch.py:115-122 | every counted word is lower-case, made of word characters, longer than three and not a stop word |
| QueryResearch.StopWordsBesidesWith | services/llm/Agents/QueryResearch.py:115-122 | apart from `with`, every stop word is already excluded by the length test |
| QueryResearch.KeywordsOf | services/llm/Agents/QueryResearch.py:125-141 | at most `max_keywords` keywords, each a counted word with its true count (at least `min_count`) and a relevance in [0.4, 1], by non-increasing count |
| QueryResearch.ChosenKeywords | services/llm/Agents/QueryResearch.py:131-139 | every Counter entry turned into a keyword carries its word's true count and a relevance in [0.4, 1] |
| QueryResearch.KeywordShape | services/llm/Agents/QueryResearch.py:102-141 | every keyword is a lower-case word of more than three characters and not a stop word |
| QueryResearch.KeptOrder | services/llm/Agents/QueryResearch.py:137-138 | filtering the most-common list by `min_count` keeps it sorted by count |
| QueryResearch.KeywordsAreTop | services/llm/Agents/QueryResearch.py:131-139 | a frequent enough word left out of the keywords occurs no more often than any keyword |
| QueryResearch.ListedIfKept | services/llm/Agents/QueryResearch.py:131-139 | a most-common entry with at least `min_count` occurrences becomes a keyword |
| QueryResearch.Sentences | services/llm/Agents/QueryResearch.py:42 | `re.split(r'[.!?]')` gives one more piece than there are terminators, and no piece holds a terminator |
| QueryResearch.PhrasesOf | services/llm/Agents/QueryResearch.py:45-63 | every counted phrase is the first three words of a cleaned sentence of at least 10 characters that holds a marker |
| QueryResearch.ThemesOf | services/llm/Agents/QueryResearch.py:57-79 | at most `max_themes` themes, each a counted phrase with its true count and a relevance in [0.4, 1], by non-increasing count; some phrase always yields a theme |
| QueryResearch.SelectTop | services/llm/Agents/QueryResearch.py:66-77 | the `min_count` selection is exactly the most common entries meeting it; when it is empty the fallback is all the most common entries |
| QueryResearch.ThemesFilter | services/llm/Agents/QueryResearch.py:66-77 | unless the filter empties the list, every theme meets `min_count` and every most-common phrase meeting it is a theme; after the fallback every most-common phrase is one |
| QueryResearch.ThemesAreTop | services/llm/Agents/QueryResearch.py:66-77 | a phrase that is not a theme occurs no more often than any theme |
| QueryResearch.ChosenThemes | services/llm/Agents/QueryResearch.py:66-77 | every Counter entry turned into a theme carries its phrase's true count and a relevance in [0.4, 1] |
| QueryResearch.ThemeHasThreeWords | services/llm/Agents/QueryResearch.py:60-62 | every theme phrase splits back into exactly three words |
| QueryResearch.TargetIds | services/llm/Agents/QueryResearch.py:196-198 | given ids are used as they are; without them, the ids are exactly those of the available indexes |
| QueryResearch.AvailableIdsInOrder | services/llm/Agents/QueryResearch.py:197-198 | the comprehension keeps the available ids in listing order, one for one, and skips falsy entries (`None` or an empty record) |
| QueryResearch.ProcessSource | services/llm/Agents/QueryResearch.py:144-179 | a processed source keeps the id and text of its result, titles a missing title `Content <id>`, and has at most 10 themes |
| QueryResearch.Run | services/llm/Agents/QueryResearch.py:181-245 | research fails iff the query raises, reports no success, or returns no results. A report processes every source in order, and its themes and keywords are those of all responses joined by spaces, at most 10 and 15 |
| QueryResearch.RunSources | services/llm/Agents/QueryResearch.py:227 | sources are processed one for one, in the order the query returned them |
| Recommendations.Top5 | services/llm/recommendations.py:35 | `results[:5]`: the first five hits at most |
| Recommendations.Selection | services/llm/recommendations.py:27-55 | without a query every index is used. With one, a query error is passed on, and otherwise the selection is drawn from the indexes and is empty only when there are none |
| Recommendations.SelectionMembers | services/llm/recommendations.py:35-55 | an index is selected when a hit names it, or, when no hit names it, when it shares a theme with the hits; a narrowed selection holds nothing else |
| Recommendations.Visits | services/llm/recommendations.py:61-78 | the nested loop visits exactly each (theme, item) pair of a selected index |
| Recommendations.GroupDomain | services/llm/recommendations.py:63-64 | a theme has a group exactly when some visit carried it |
| Recommendations.GroupKeys | services/llm/recommendations.py:58-64 | groups appear in the order their themes were first visited |
| Recommendations.GroupContents | services/llm/recommendations.py:66-78 | a group holds the items visited with its theme, in visiting order |
| Recommendations.SortedGroups | services/llm/recommendations.py:88-96 | the groups are sorted by non-increasing count, as a permutation of the unsorted list |
| Recommendations.Recommend | services/llm/recommendations.py:9-98 | no indexes is an error and a query error is passed on. A result echoes the query, counts the selected indexes and lists their theme groups, largest first |
| Recommendations.GroupFound | services/llm/recommendations.py:88-93 | every listed group is the group of one of the dict's themes |
| Recommendations.GroupMembership | services/llm/recommendations.py:61-93 | an item is in a theme's group iff it comes from a selected index with that theme, and a group's count is its number of items |
| Recommendations.SortedThemes | services/llm/recommendations.py:96 | sorting keeps exactly one group per theme |
| Recommendations.GroupThemes | services/llm/recommendations.py:61-96 | there is a group for a theme iff a selected index carries it |
| Recommendations.GroupOrder | services/llm/recommendations.py:88-93 | before sorting, the groups follow the distinct visited themes in order of first appearance |
| Recommendations.GroupsStable | services/llm/recommendations.py:96 | groups of equal size keep the order their themes first appeared in |
| Chat.HistoryMessages | services/llm/chat.py:71-86 | the history gives at most one message per entry and never a system message |
| Chat.HistoryKeepsConversation | services/llm/chat.py:71-86 | the history messages are exactly the user and assistant entries, in order. Every other entry is skipped without stopping the loop |
| Chat.AgentHistory | services/llm/chat.py:163-185 | on the agent path, an entry that fails for a reason other than bad JSON empties the whole history; otherwise the history is the same as on the chat path |
| Chat.Passage | services/llm/chat.py:127-131 | each passage is `From <title>:` (`Unknown` without a title), a newline, and the stripped response, and nothing else |
| Chat.Context | services/llm/chat.py:99-139 | the context is non-empty iff the query succeeded and some result has text once stripped; it is then the passages of those results joined by blank lines |
| Chat.SystemPrompt | services/llm/chat.py:58-65 | the prompt starts with the base prompt, equals it exactly when there is no context, and otherwise ends with the context |
| Chat.Messages | services/llm/chat.py:67-89 | the message list opens with the system prompt, closes with the new user message, and has no other system message |
| Chat.UniqueIds | services/llm/chat.py:52-53 | `list(set(ids))` holds each given id exactly once |
| Chat.QueryResponse | services/llm/chat.py:17-97 | a missing API key gives the fixed error. Otherwise the reply is the model's answer to the messages, with the context of the unique ids when ids are given, or `Error: <message>` |
| Chat.ResponseText | services/llm/chat.py:91-97 | a successful model call gives its answer, and a failed one `Error: <message>` |
| Chat.NoContextWithoutSuccess | services/llm/chat.py:124-139 | a content query that reports no success gives no context, so the system prompt is the base prompt |
| InstructionParser.FirstLineWith | services/llm/agents/instruction_parser.py:46 | `[line for line in lines if marker in line][0]` picks the first line holding the marker, or none when no line holds it |
| InstructionParser.MarkerOnSomeLine | services/llm/agents/instruction_parser.py:44-46 | a marker without a newline that occurs in the reply occurs within one of its lines, so the list index never fails |
| InstructionParser.MarkerTail | services/llm/agents/instruction_parser.py:44-56 | the tail exists iff the reply holds the marker, and is then the stripped text after the marker on the first line holding it, up to any second marker |
| InstructionParser.LineInText | services/llm/agents/instruction_parser.py:46 | a marker found on a line is in the reply |
| InstructionParser.WordCountTail | services/llm/agents/instruction_parser.py:44-47 | the word-count text is the stripped text after `WORD_COUNT:` on the first line holding it, present iff the reply holds the marker |
| InstructionParser.ContextTail | services/llm/agents/instruction_parser.py:53-56 | the context text is the stripped text after `CONTEXT:` on the first line holding it, present iff the reply holds the marker |
| InstructionParser.Parse | services/llm/agents/instruction_parser.py:41-61 | a word-count instruction exists iff the reply holds `WORD_COUNT:` and its tail is all digits, and is the instruction for that tail. A context instruction exists iff the reply holds `CONTEXT:`, and is built from its tail. A reply with neither marker gives the empty dict |
| InstructionParser.Analyze | services/llm/agents/instruction_parser.py:21-65 | a failing model call gives the empty dict; otherwise the stripped reply is parsed |
| InstructionParser.WordCountReply | services/llm/agents/instruction_parser.py:44-49 | the one-line reply `WORD_COUNT: n` yields the instruction for exactly `n` words |
| NotionUtils.CombinedAppend | services/notion/utils.py:75-79 | the combined text of two runs of documents is their two texts, one after the other |
| NotionUtils.CombinedLength | services/notion/utils.py:76-77 | each document with text adds its text and a blank line |
| NotionUtils.ContentAsText | services/notion/utils.py:71-88 | a combined text of up to 10000 characters is kept whole. A longer one becomes its first 10000 characters followed by `...` |
| NotionUtils.MetadataTitle | services/notion/utils.py:30-33 | the title is the first non-empty metadata title among the documents, and none exists iff no document has one |
| NotionUtils.FirstLine | services/notion/utils.py:40 | the first line of the stripped content, stripped: all of it without a newline, else the part before the first newline; it has no newline and no surrounding whitespace |
| NotionUtils.ContentTitle | services/notion/utils.py:36-42 | the title is the first line of the first document whose content is non-empty and whose first line is title-like; none exists iff no document qualifies |
| NotionUtils.ContentTitleShape | services/notion/utils.py:39-42 | a content title is title-like, on one line, and starts with a non-space |
| NotionUtils.EmptyContentNoTitle | services/notion/utils.py:38-42 | a document without content never supplies the title, whatever the title test: its first line is empty and fails the length test |
| NotionUtils.PageTitle | services/notion/utils.py:24-69 | the title is never empty. The metadata title comes first, then a content first line, then the API's title, then `Notion Page <id[:8]>...` |
| NotionUtils.DownloadBlob | services/notion/utils.py:90-124 | at most three attempts, and every attempt before the last one failed. A missing blob is raised at once. Any other error is retried, and only the third such error is raised |
| MultiAgents.FirstBlock | services/llm/MultiAgents/ReviewingAgent.py:117 | `re.search(open(.*?)close, DOTALL)` finds the leftmost opener that has a closer after it, and the first such closer; there is no block iff no opener is followed by a closer |
| MultiAgents.RemoveBlocks | services/llm/MultiAgents/ReviewingAgent.py:120 | removing every block never lengthens the text, and changes it iff it holds a block |
| MultiAgents.RemoveBlocksCut | services/llm/MultiAgents/ReviewingAgent.py:120 | the leftmost block, from the first opener to the first closer after it, is cut with its delimiters; the text before it stays and the search goes on after it |
| MultiAgents.FirstKind | services/llm/MultiAgents/ReviewingAgent.py:105-121 | the delimiter kinds are tried in order, and the first kind with a block is used |
| MultiAgents.ParseInstruction | services/llm/MultiAgents/StructuralAgent.py:107-125 | without a block the instruction is kept whole. Otherwise the content is the stripped inside of the first kind's first block, and the instruction is the stripped text without all blocks of that kind |
| MultiAgents.FencedRoundTrip | services/llm/MultiAgents/ReviewingAgent.py:105-123 | parsing a backtick-fenced block followed by a request gives back the block's text and the request, both stripped |
| MultiAgents.NoBlockWithout | services/llm/MultiAgents/ReviewingAgent.py:117 | a text lacking the closer's first character has no block |
| MultiAgents.ReviewPrompt | services/llm/MultiAgents/ReviewingAgent.py:39-72 | a non-empty content block gives the content review prompt. An absent or empty block gives the framework prompt on the whole instruction |
| MultiAgents.StructurePrompt | services/llm/MultiAgents/StructuralAgent.py:107-125 | the same choice for the structuring prompt |
| MultiAgents.Review | services/llm/MultiAgents/ReviewingAgent.py:74-92 | the review is the model's answer unchanged, or `Error generating review: <message>` |
| MultiAgents.Structure | services/llm/MultiAgents/StructuralAgent.py:80-94 | the structure is the cleaned answer, or `Error structuring content: <message>` |
| MultiAgents.WriteContent | services/llm/MultiAgents/WritingAgent.py:36-68 | the whole instruction goes into the prompt, and the result is the cleaned answer or `Error generating content: <message>` |
| MultiAgents.DropLeadIn | services/llm/MultiAgents/WritingAgent.py:81 | only a prefix is removed: a lead-in, the rest of its line up to a colon, and the whitespace after it. Without a lead-in the text is unchanged |
| MultiAgents.DropLeadInCut | services/llm/MultiAgents/WritingAgent.py:81 | after a lead-in the text is cut just after its first colon, with the whitespace that follows, when no newline comes before that colon; otherwise nothing is cut |
| MultiAgents.DropSignOff | services/llm/MultiAgents/WritingAgent.py:84 | the leftmost sign-off that ends the text, before an optional final newline, is removed and the final newline is kept. Without a sign-off the text is unchanged |
| MultiAgents.DropSignOffExample | services/llm/MultiAgents/WritingAgent.py:84 | a closing `I hope this helps` is dropped |
| MultiAgents.Collapse | services/llm/MultiAgents/WritingAgent.py:87 | collapsing newline runs never lengthens the text and keeps its first and last character when they are not newlines |
| MultiAgents.CollapseNoTriple | services/llm/MultiAgents/WritingAgent.py:87 | after collapsing, no three newlines follow each other |
| MultiAgents.CollapseKeepsClean | services/llm/MultiAgents/WritingAgent.py:87 | text without three newlines in a row is unchanged |
| MultiAgents.CleanContent | services/llm/MultiAgents/StructuralAgent.py:127-146 | the cleaned answer has no surrounding whitespace and no run of three newlines |
| MultiAgents.CleanIdempotent | services/llm/MultiAgents/StructuralAgent.py:138-144 | cleaning text that is already clean, and has no lead-in or sign-off, changes nothing |
| MultiAgents.StripClean | services/llm/MultiAgents/StructuralAgent.py:144 | stripping text without surrounding whitespace changes nothing |
| WriteAgent.BackOff | services/llm/Agents/Write.py:45 | the greedy `\s+` gives back whitespace until `.+` can start on a character other than a newline, taking the longest such length; there is none iff every later candidate is a newline |
| WriteAgent.MatchAt | services/llm/Agents/Write.py:45 | a match at a position captures a non-empty run of the text with no newline in it, ending where the match ends |
| WriteAgent.MatchAtMeaning | services/llm/Agents/Write.py:45 | a match is the lead character, whitespace backed off to before the last non-newline it reaches, and the rest of that line; there is none iff no whitespace follows the lead or all of it up to the run's end is newlines |
| WriteAgent.FirstMatch | services/llm/Agents/Write.py:237 | the search returns the leftmost line start where the pattern matches; it returns none iff no line start from there on matches |
| WriteAgent.FindAll | services/llm/Agents/Write.py:45 | `re.findall` finds something iff some line start from the position matches |
| WriteAgent.FindAllFirst | services/llm/Agents/Write.py:45 | the first capture found is that of the leftmost matching line start |
| WriteAgent.FindAllGroups | services/llm/Agents/Write.py:45 | the captures are those of successive matching line starts, in increasing order, each a non-empty single line |
| WriteAgent.Heading | services/llm/Agents/Write.py:237 | a heading exists iff some line start matches `#\s+(.+)$`, and is the capture of the leftmost such match: a non-empty text on one line |
| WriteAgent.KeyPoints | services/llm/Agents/Write.py:44-47 | the key points are the captures of the successive bullet matches, in text order, each a non-empty single line; there are some iff some line start matches |
| WriteAgent.DashKeyPoint | services/llm/Agents/Write.py:45-47 | a text `- t` yields exactly one key point, `t` |
| WriteAgent.NumberedItemMissed | services/llm/Agents/Write.py:45 | a numbered item `1. x` yields no key point, because the digit must be followed by whitespace, not a dot |
| WriteAgent.HeadingOfFirstLine | services/llm/Agents/Write.py:237-238 | an answer whose first line is `# t` has the title `t`, whatever follows |
| WriteAgent.HeadingAcrossNewline | services/llm/Agents/Write.py:237 | a bare `#` line takes the next line as the heading, since `\s+` can match the newline |
| WriteAgent.WordCount | services/llm/Agents/Write.py:127-133 | the word count is one of the four ranges, and any length outside the four known names gets `200-400 words` |
| WriteAgent.WordCountIgnoresCase | services/llm/Agents/Write.py:133 | the word-count lookup gives the same range for a length and its lower-cased form |
| WriteAgent.QuizSize | services/llm/Agents/Write.py:161 | a quiz has 3 questions iff the length is exactly `short`, 5 iff exactly `medium`, and 8 otherwise |
| WriteAgent.VeryShortQuiz | services/llm/Agents/Write.py:127-161 | `very short` asks for the shortest text but the largest quiz, 8 questions |
| WriteAgent.CapitalisedShortQuiz | services/llm/Agents/Write.py:133-161 | `Short` shortens the text to 100-200 words, but the quiz still gets 8 questions, because the quiz compares the length without lower-casing it |
| WriteAgent.PreparePrompt | services/llm/Agents/Write.py:121-180 | a prompt exists iff the lower-cased type is `answer`, `summary` or `quiz`; it carries the topic, defaulting to empty, and, for answers and summaries, the word count of the length, defaulting to `medium` |
| WriteAgent.Research | services/llm/Agents/Write.py:193-214 | research context exists iff research is on, the topic is non-empty and the query succeeds with results; it is then `Research Context:` and the cited sources' parts, one per line |
| WriteAgent.SourceParts | services/llm/Agents/Write.py:204-210 | one part per result with a title and text, and every part comes from such a result |
| WriteAgent.SourcePartsInOrder | services/llm/Agents/Write.py:204-210 | the parts distribute over concatenation, so they follow the order of the results |
| WriteAgent.Title | services/llm/Agents/Write.py:237-238 | the title is the first heading when there is one, else the topic |
| WriteAgent.WriteRequest | services/llm/Agents/Write.py:189-270 | an unknown type fails with the unbound-`prompt` error, and an LLM error fails with `Error from LLM service:`. Otherwise the result keeps the raw answer and is titled with its first heading, else the topic; an answer carries the raw text and no sources, and a summary the raw text and the key points read from it |
| WriteAgent.NoResearchWithoutSuccess | services/llm/Agents/Write.py:199-201 | when the content query never reports success, the prompt never carries research context |

## Left out

- QueryResearch.TargetIds: an available index record that is present and truthy but has no `id` raises `KeyError` in the comprehension (`services/llm/Agents/QueryResearch.py:198`), which `research` turns into its error result (244-254); the model's entries are an id or `None` (a falsy entry), so that case is not modelled.
- Network and SDK calls: OpenAI and llama_index models and agents, Tavily search, the Notion API, and bucket I/O with pickling. Each appears as an input value or an oracle function, because their behaviour is outside this code.
- The ingestion pipelines (`services/document/pdf.py`, `services/document/text.py`, `services/notion/cache.py`, `routes/file/file_add_routes.py`) are orchestration of foreign readers and uploads, so they are not part of this model.
- Background reload threads and module-level mutable state are left out, because concurrency is not modelled. `TtlCache.AsyncReload` models only the state a finished background reload leaves; the cache state is an explicit value.
- Floating-point arithmetic is left out, because the model needs exact values. Similarity scores and the boost in `services/llm/content.py`, and `search_best_context`, are not modelled. The Review scores, the query-agent coverage and the QueryResearch relevance are exact rationals, so float rounding just below a `.5` boundary is not modelled.
- Review.AccuracyScore: computed on exact rationals before the half-even round. A float quotient that lands just off a `.5` tie can round the other way in Python.
- QueryResearch.Relevance: an exact rational where Python divides floats.
- Prompt texts are kept as their parameters, not as the full f-string text. This holds for the Write, Review, reviewing, structural and writing agents, and for the instruction-detection prompt, because the model treats the language model as an oracle over the prompt.
- WriteAgent.WriteRequest: the quiz result carries only the title and the raw text. `_format_quiz` (the question, option and explanation regexes of `services/llm/Agents/Write.py:56-109`) is not modelled, because its lazy look-ahead regexes parse free-form model output.
- `lower()`, `capitalize()`, `isdigit()`, `\d` and `\w` are modelled on ASCII characters only, because Unicode case tables and digit categories are out of scope.
- `set()` iteration order is modelled as first-occurrence order (`Tally.Uniq`). Python's order for strings is hash-dependent, and every property stated about it holds for any order of the same distinct elements.
- Log messages, `print` calls and flash categories are left out where they do not change a result.
- The `metadata` entry of a processed source (`services/llm/Agents/QueryResearch.py:163-175`) is not modelled: the processed record keeps only the id, title, themes and text, because the entry is a bucket read that nothing in the model consumes.
- NotionUtils.PageTitle: the title the Notion API yields is the oracle `apiTitle`. The joining of the API's rich-text title parts is not modelled.
- The duplicated helpers in `services/notion_service.py` and the older agents in `services/llm/agent/` are not part of this model, because they repeat logic already modelled or are pure API calls.

## Behaviour of the source kept as written

- `routes/file/folder_management_routes.py` imports its folder functions from `services/llm/cache.py`, which does not define them. `FolderRoutes` calls the definitions of `services/utils/cache.py`.
- `routes/file/file_routes.py`, `routes/file/file_view_routes.py` and `routes/file_storage_routes.py` import `get_available_indexes` from `services/llm_service.py`, which does not define it. In the browse routes `Listing.BrowseFolder` and `Listing.BrowseAll`, the listing is `Items.ListEntries`, the model of `get_available_indexes(folder_path)` in `services/utils/cache.py:189-267`, standing in for the missing import. `Listing.MoveTable` and `Listing.ListCached` take the listing as an input. `QueryResearch.TargetIds` takes its listing as an input too; its import, from `services/llm/cache.py`, resolves.
- The metadata routes import `get_file_metadata` and `update_file_metadata` from `services/storage_service.py`, which defines neither. The lookup is an input (`current`) and the save a flag (`saveOk`).
- The coordinator, reviewing, structural and writing agents and `services/llm/Agents/Write.py` import `get_llm_response` from `services/llm/chat.py`, which neither defines nor imports it. The only definition, in `services/llm_service.py:10`, takes `(query, context=None)` and has no `use_context` parameter, which `Write.py:224-227` passes. The language-model oracle of these modules stands in for a function they cannot import.
- A PDF's metadata blob is `cache/metadata_doc_<id>.pkl`. The folder module reads the key after `metadata_`, so it keys that item as `doc_<id>`, while the other two caches key it as `<id>` (`Catalogue.PlainMetadataIdOfDocument`).
- `query_content` never sets `success`. So the chat context is always empty (`Chat.NoContextWithoutSuccess`), Write never uses research (`WriteAgent.NoResearchWithoutSuccess`), and `research` always fails.
- On the agent chat path, only a JSON error is caught per history entry: any other error abandons the whole history (`Chat.AgentHistory`).
- The coordinator gives generated ids `task_<i+1>` without checking the ids a plan already carries, so two tasks can share an id.
- Removing delimited blocks with `re.sub` can leave a new block formed from the pieces around a removed one.
- In `Write.py`, the quiz size compares the length as given, but the word count lower-cases it. So `very short` gets 8 questions, and `Short` gets 100-200 words with 8 questions.
- In `Write.py`, an unknown content type leaves `prompt` unbound. `write` reports the interpreter's message for that, in its Python 3.11 wording, and the "default to answer" branch is never reached.
- The `\s+` in the heading and key-point patterns can match a newline (`WriteAgent.HeadingAcrossNewline`).
- The inline load of `services/llm/cache.py` leaves the `is_loading` flag as it was.
