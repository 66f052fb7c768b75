/**
 * Item metadata as stored in the bucket (one pickled dict per item under
 * `cache/metadata_<key>.pkl`), the listing record that
 * `services/utils/cache.py:get_available_indexes` derives from it, and the
 * recursive folder-membership predicate that listing uses.
 */
module Items {
  import opened Wrappers
  import opened PyText
  import Seqs

  /** The `auto_metadata` sub-dictionary; absent keys are `None`. */
  datatype AutoMeta = AutoMeta(
    summary: Option<string>,
    language: Option<string>,
    contentType: Option<string>,
    themes: Option<seq<string>>,
    topics: Option<seq<string>>,
    keywords: Option<seq<string>>,
    entities: Option<seq<string>>,
    autoGenerated: Option<bool>,
    other: map<string, string>)

  /** An item's metadata dict; absent keys are `None`, unknown keys sit in `other`. */
  datatype Meta = Meta(
    id: Option<string>,
    notionId: Option<string>,
    title: Option<string>,
    kind: Option<string>,
    format: Option<string>,
    folder: Option<string>,
    storagePath: Option<string>,
    auto: Option<AutoMeta>,
    other: map<string, string>)
  {
    /** A dict with no keys at all, which Python treats as false. */
    predicate IsEmpty() {
      id.None? && notionId.None? && title.None? && kind.None? && format.None?
      && folder.None? && storagePath.None? && auto.None? && other == map[]
    }
  }

  /** Python's `not metadata` for a lookup result: no record, or an empty dict. */
  predicate Missing(found: Option<Meta>) {
    found.None? || found.value.IsEmpty()
  }

  /**
   * The item store: metadata by key, where the key is the part of the blob name
   * between `cache/metadata_` and `.pkl`.
   */
  type Store = map<string, Meta>

  /** One row of the file listing. */
  datatype Entry = Entry(
    id: string,
    notionId: string,
    title: string,
    kind: string,
    folder: string,
    path: string,
    storagePath: string)

  /**
   * The listing type: the `format` of a document when it is non-empty, else
   * the stored type (`unknown` when absent).
   */
  function ShownKind(m: Meta): (k: string)
    ensures m.kind.GetOr("document") == "document" && m.format.GetOr("unknown") != ""
            ==> k == m.format.GetOr("unknown")
    ensures m.kind.Some? && m.kind.value != "document" ==> k == m.kind.value
    ensures m.kind.None? && m.format == Some("") ==> k == "unknown"
    ensures m.kind == Some("document") && m.format == Some("") ==> k == "document"
  {
    var t := m.kind.GetOr("document");
    var f := m.format.GetOr("unknown");
    if t == "document" && f != "" then f else m.kind.GetOr("unknown")
  }

  function ToEntry(m: Meta): (e: Entry)
    ensures e.folder == e.path == m.folder.GetOr("")
    ensures e.title == m.title.GetOr("Untitled")
    ensures e.id == m.id.GetOr("")
  {
    Entry(m.id.GetOr(""), m.notionId.GetOr(""), m.title.GetOr("Untitled"),
          ShownKind(m), m.folder.GetOr(""), m.folder.GetOr(""), m.storagePath.GetOr(""))
  }

  /**
   * `x` is the folder `f` or lies below it. The root `""` contains only the
   * items whose folder is `""` itself.
   */
  predicate Under(x: string, f: string) {
    x == f || (f != "" && x != "" && StartsWith(x, f + "/"))
  }

  /** The listing predicate: no folder filter, or membership at or below it. */
  predicate InFolder(filter: Option<string>, itemFolder: string) {
    filter.None? || Under(itemFolder, filter.value)
  }

  /** Containment is transitive: an item below a subfolder is below the folder. */
  lemma UnderTransitive(x: string, g: string, f: string)
    requires Under(x, g) && Under(g, f)
    ensures Under(x, f)
  {
    if x != g && g != f {
      assert g[..|f| + 1] == f + "/";
      assert x[..|g|] == g[..|g|];
      assert x[..|f| + 1] == g[..|f| + 1];
    }
  }

  /** The direct child `f/name` of a non-root folder lies below it. */
  lemma ChildUnder(f: string, name: string)
    requires f != ""
    ensures Under(f + "/" + name, f)
  {
    assert (f + "/" + name)[..|f + "/"|] == f + "/";
  }

  /** `x` below `f` means `x` is `f` or starts with `f/`. */
  lemma UnderStartsWith(x: string, f: string)
    requires Under(x, f)
    ensures StartsWith(x, f)
  {
    if x != f {
      assert x[..|f|] == (f + "/")[..|f|];
    }
  }

  /** Whether the item under `key` appears in a listing for `filter`. */
  predicate Listed(store: Store, key: string, filter: Option<string>) {
    key in store && !store[key].IsEmpty() && InFolder(filter, store[key].folder.GetOr(""))
  }

  /**
   * `get_available_indexes(folder_path)` of `services/utils/cache.py`: walk the
   * bucket listing `order` and emit one entry for every non-empty metadata
   * record in the folder (or any folder when `filter` is `None`).
   */
  function ListEntries(store: Store, order: seq<string>, filter: Option<string>): (r: seq<Entry>)
    ensures |r| <= |order|
    ensures forall i :: 0 <= i < |order| && Listed(store, order[i], filter)
              ==> ToEntry(store[order[i]]) in r
    ensures forall i :: 0 <= i < |r| ==> InFolder(filter, r[i].folder)
    decreases |order|
  {
    if |order| == 0 then []
    else
      var rest := ListEntries(store, order[1..], filter);
      assert forall j :: 0 <= j < |order| - 1 ==> order[1..][j] == order[j + 1];
      if Listed(store, order[0], filter) then [ToEntry(store[order[0]])] + rest else rest
  }

  /**
   * The listing is the comprehension
   * `[entry(store[k]) for k in order if listed(k)]`.
   */
  lemma {:induction false} ListEntriesIsComprehension(store: Store, order: seq<string>, filter: Option<string>)
    ensures var keys := Seqs.Filter(order, k => Listed(store, k, filter));
      ListEntries(store, order, filter) == Seqs.Map(keys, k => if k in store then ToEntry(store[k]) else ToEntry(EmptyMeta()))
    decreases |order|
  {
    if |order| > 0 {
      ListEntriesIsComprehension(store, order[1..], filter);
    }
  }

  function EmptyMeta(): (m: Meta)
    ensures m.IsEmpty()
  {
    Meta(None, None, None, None, None, None, None, None, map[])
  }

  /** The folder a listing row belongs to is at or below `f`. */
  predicate EntryUnder(e: Entry, f: string) {
    Under(e.folder, f)
  }

  /**
   * Listing one folder is the same as listing everything and keeping the rows
   * whose folder is at or below it.
   */
  lemma {:induction false} FolderListingIsFilter(store: Store, order: seq<string>, f: string)
    ensures ListEntries(store, order, Some(f))
         == Seqs.Filter(ListEntries(store, order, None), e => EntryUnder(e, f))
    decreases |order|
  {
    if |order| > 0 {
      FolderListingIsFilter(store, order[1..], f);
    }
  }

  /** Every row listed for a subfolder is also listed for its ancestors. */
  lemma SubfolderRowsListed(store: Store, order: seq<string>, g: string, f: string, e: Entry)
    requires Under(g, f)
    requires e in ListEntries(store, order, Some(g))
    ensures e in ListEntries(store, order, Some(f))
  {
    var all := ListEntries(store, order, None);
    FolderListingIsFilter(store, order, g);
    FolderListingIsFilter(store, order, f);
    var i :| 0 <= i < |ListEntries(store, order, Some(g))| && ListEntries(store, order, Some(g))[i] == e;
    assert e in all && EntryUnder(e, g);
    UnderTransitive(e.folder, g, f);
    var k :| 0 <= k < |all| && all[k] == e;
    assert (e => EntryUnder(e, f))(all[k]);
  }
}
