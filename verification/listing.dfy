/**
 * The content-listing pipeline that the file routes repeat: filter the listing
 * by title (case-insensitive substring) and by exact type, compute the page
 * count, clamp the requested page, and cut out that page.
 *
 * The handlers differ only in how they clamp: `view_files` and
 * `filtered_content` raise a low page to 1 and lower a high one, `move_item`
 * uses `min(max(1, page), total_pages)`, and `delete_file` only lowers.
 */
module Listing {
  import opened Wrappers
  import opened PyText
  import opened PyInt
  import opened Items
  import Seqs

  /** The query-string parameters every listing handler reads. */
  datatype Query = Query(page: int, perPage: int, title: string, kind: string, folder: string)

  /** What a listing handler hands to its template. */
  datatype Page = Page(items: seq<Entry>, totalItems: int, page: int, perPage: int, totalPages: int)

  /** The listing shown after an exception: nothing, page 1 of 1, 10 per page. */
  const DefaultPage := Page([], 0, 1, 10, 1)

  /** `filter_folder if filter_folder else None`: an empty folder means no filter. */
  function FolderFilter(folder: string): (f: Option<string>)
    ensures f.None? <==> folder == ""
    ensures f.Some? ==> f.value == folder
  {
    if folder == "" then None else Some(folder)
  }

  /** `filter_title.lower() in idx['title'].lower()`. */
  predicate TitleMatches(e: Entry, title: string) {
    Contains(Lower(e.title), Lower(title))
  }

  /**
   * The title filter (only when the title is non-empty) followed by the exact
   * type filter (only when the type is non-empty).
   */
  function ApplyFilters(entries: seq<Entry>, title: string, kind: string): (r: seq<Entry>)
    ensures title == "" && kind == "" ==> r == entries
    ensures forall i :: 0 <= i < |r| ==>
              r[i] in entries && (title != "" ==> TitleMatches(r[i], title))
              && (kind != "" ==> r[i].kind == kind)
    ensures forall i :: (0 <= i < |entries| && (title == "" || TitleMatches(entries[i], title))
                         && (kind == "" || entries[i].kind == kind)) ==> entries[i] in r
  {
    var byTitle := if title != "" then Seqs.Filter(entries, e => TitleMatches(e, title)) else entries;
    if kind != "" then Seqs.Filter(byTitle, (e: Entry) => e.kind == kind) else byTitle
  }

  /** Both filters together keep entries in their listing order. */
  lemma FiltersKeepOrder(a: seq<Entry>, b: seq<Entry>, title: string, kind: string)
    ensures ApplyFilters(a + b, title, kind) == ApplyFilters(a, title, kind) + ApplyFilters(b, title, kind)
  {
    if title != "" {
      Seqs.FilterAppend(a, b, e => TitleMatches(e, title));
    }
    var ta := if title != "" then Seqs.Filter(a, e => TitleMatches(e, title)) else a;
    var tb := if title != "" then Seqs.Filter(b, e => TitleMatches(e, title)) else b;
    if kind != "" {
      Seqs.FilterAppend(ta, tb, (e: Entry) => e.kind == kind);
    }
  }

  /**
   * `(total_items + per_page - 1) // per_page if total_items > 0 else 1`; the
   * division by a zero `per_page` raises.
   */
  function TotalPages(n: nat, perPage: int): (r: Result<int>)
    ensures n == 0 ==> r == Ok(1)
    ensures n > 0 && perPage == 0 <==> r.Err?
    ensures n > 0 && perPage > 0 ==> r.Ok? && 1 <= r.value
                                     && perPage * (r.value - 1) < n <= perPage * r.value
  {
    if n == 0 then Ok(1)
    else if perPage == 0 then Err("integer division or modulo by zero")
    else
      CeilDiv(n, if perPage > 0 then perPage else 1);
      Ok(FloorDiv(n + perPage - 1, perPage))
  }

  /** The clamp of `view_files` and `filtered_content`. */
  function ClampView(page: int, totalPages: int): (p: int)
    ensures totalPages >= 1 ==> 1 <= p <= totalPages
    ensures 1 <= page && (page <= totalPages || totalPages <= 0) ==> p == page
    ensures page < 1 ==> p == 1
  {
    if page < 1 then 1 else if page > totalPages && totalPages > 0 then totalPages else page
  }

  /** The clamp of `move_item`: `min(max(1, page), total_pages)`. */
  function ClampMove(page: int, totalPages: int): (p: int)
    ensures totalPages >= 1 ==> 1 <= p <= totalPages
    ensures 1 <= page <= totalPages ==> p == page
    ensures p <= totalPages
  {
    Min(Max(1, page), totalPages)
  }

  /** The adjustment of `delete_file`: lower the page to the last one, never raise it. */
  function ClampDelete(page: int, totalPages: int): (p: int)
    ensures p <= page
    ensures totalPages > 0 ==> p <= totalPages
    ensures page <= totalPages || totalPages <= 0 ==> p == page
  {
    if page > totalPages && totalPages > 0 then totalPages else page
  }

  /** `content_indexes[start:start + per_page]` with `start = (page - 1) * per_page`, or nothing. */
  function PageSlice(items: seq<Entry>, page: int, perPage: int): (r: seq<Entry>)
    ensures |items| == 0 ==> r == []
    ensures perPage > 0 && page >= 1 ==> |r| <= perPage
    ensures perPage > 0 && page >= 1 && (page - 1) * perPage <= |items|
            ==> r == items[(page - 1) * perPage..Min(page * perPage, |items|)]
  {
    if |items| > 0 then
      var start := (page - 1) * perPage;
      NonNegProduct(page - 1, perPage);
      Slice(items, start, start + perPage)
    else []
  }

  lemma NonNegProduct(a: int, b: int)
    ensures a >= 0 && b >= 0 ==> a * b >= 0
  {
  }

  /**
   * The listing pipeline once the unfiltered listing is known: filters, page
   * count, clamp and slice; a raised division yields the default page.
   */
  function Paginate(entries: seq<Entry>, q: Query): (r: Page)
    ensures q.perPage > 0 ==> 1 <= r.page <= r.totalPages
    ensures q.perPage > 0 ==> |r.items| <= q.perPage
    ensures r.totalItems == 0 ==> r.items == []
    ensures forall i :: 0 <= i < |r.items| ==> r.items[i] in ApplyFilters(entries, q.title, q.kind)
    ensures q.perPage == 0 && |ApplyFilters(entries, q.title, q.kind)| > 0 ==> r == DefaultPage
    ensures q.perPage != 0 || |ApplyFilters(entries, q.title, q.kind)| == 0
            ==> r.totalItems == |ApplyFilters(entries, q.title, q.kind)| && r.perPage == q.perPage
  {
    var f := ApplyFilters(entries, q.title, q.kind);
    match TotalPages(|f|, q.perPage)
    case Err(_) => DefaultPage
    case Ok(tp) =>
      var p := ClampView(q.page, tp);
      Page(PageSlice(f, p, q.perPage), |f|, p, q.perPage, tp)
  }

  /**
   * `view_files` of `routes/file/file_routes.py`, repeated by
   * `filtered_content`: list the folder (everything when the folder parameter
   * is empty), then paginate.
   */
  function BrowseFolder(store: Store, order: seq<string>, q: Query): (r: Page)
    ensures q.perPage > 0 ==> 1 <= r.page <= r.totalPages && |r.items| <= q.perPage
    ensures forall i :: 0 <= i < |r.items| ==> InFolder(FolderFilter(q.folder), r.items[i].folder)
  {
    Paginate(ListEntries(store, order, FolderFilter(q.folder)), q)
  }

  /**
   * `view_files` of `routes/file_storage_routes.py`: the same pipeline over the
   * whole listing, with no folder parameter.
   */
  function BrowseAll(store: Store, order: seq<string>, q: Query): (r: Page)
    ensures q.perPage > 0 ==> 1 <= r.page <= r.totalPages && |r.items| <= q.perPage
    ensures r.totalItems == 0 ==> r.items == []
  {
    Paginate(ListEntries(store, order, None), q)
  }

  /** Browsing everything is browsing the folder handler with an empty folder. */
  lemma BrowseAllIsRootlessBrowse(store: Store, order: seq<string>, q: Query)
    ensures BrowseAll(store, order, q) == BrowseFolder(store, order, q.(folder := ""))
  {
  }

  /**
   * The table `move_item` renders for an HTMX request after the move: clamp
   * with `min(max(1, page), total_pages)`, slice only when there are items; a
   * zero `per_page` raises, which the handler reports as an error.
   */
  function MoveTable(entries: seq<Entry>, q: Query): (r: Result<Page>)
    ensures r.Err? <==> q.perPage == 0 && |ApplyFilters(entries, q.title, q.kind)| > 0
    ensures r.Ok? && q.perPage > 0 ==> 1 <= r.value.page <= r.value.totalPages
    ensures r.Ok? && q.perPage > 0 ==> |r.value.items| <= q.perPage
    ensures r.Ok? && r.value.totalItems == 0 ==> r.value.items == [] && r.value.page == 1
  {
    var f := ApplyFilters(entries, q.title, q.kind);
    match TotalPages(|f|, q.perPage)
    case Err(e) => Err(e)
    case Ok(tp) =>
      var p := ClampMove(q.page, tp);
      Ok(Page(PageSlice(f, p, q.perPage), |f|, p, q.perPage, tp))
  }

  /**
   * The page `delete_file` redirects to: after a successful deletion the page
   * is lowered to the new last page when it lies beyond it; when the deletion
   * or the page count raises, the requested page is kept.
   */
  function DeleteRedirectPage(deleted: bool, after: seq<Entry>, q: Query): (p: int)
    ensures p <= q.page
    ensures !deleted ==> p == q.page
    ensures deleted && q.perPage > 0 && |ApplyFilters(after, q.title, q.kind)| > 0
            ==> p <= TotalPages(|ApplyFilters(after, q.title, q.kind)|, q.perPage).value
    ensures p == q.page || (deleted && TotalPages(|ApplyFilters(after, q.title, q.kind)|, q.perPage).Ok?
                            && p == TotalPages(|ApplyFilters(after, q.title, q.kind)|, q.perPage).value)
  {
    if !deleted then q.page
    else
      match TotalPages(|ApplyFilters(after, q.title, q.kind)|, q.perPage)
      case Err(_) => q.page
      case Ok(tp) => ClampDelete(q.page, tp)
  }

  // ---------------------------------------------------------------------------
  // Pages partition the filtered listing
  // ---------------------------------------------------------------------------

  /** The pages `1..k` laid end to end. */
  function FirstPages(items: seq<Entry>, perPage: int, k: nat): seq<Entry> {
    if k == 0 then [] else FirstPages(items, perPage, k - 1) + PageSlice(items, k, perPage)
  }

  /** Pages `1..k` cover exactly the first `k * per_page` items. */
  lemma {:induction false} FirstPagesPrefix(items: seq<Entry>, perPage: int, k: nat)
    requires perPage > 0 && |items| > 0
    requires k == 0 || (k - 1) * perPage < |items|
    ensures FirstPages(items, perPage, k) == items[..Min(k * perPage, |items|)]
  {
    if k > 0 {
      var m := k - 1;
      var lo := m * perPage;
      MulSucc(m, perPage);
      assert k * perPage == lo + perPage;
      if m > 0 {
        MulSucc(m - 1, perPage);
      }
      FirstPagesPrefix(items, perPage, m);
      var hi := Min(lo + perPage, |items|);
      assert FirstPages(items, perPage, m) == items[..lo];
      assert PageSlice(items, k, perPage) == items[lo..hi];
      assert items[..lo] + items[lo..hi] == items[..hi];
    }
  }

  lemma MulSucc(a: int, b: int)
    ensures (a + 1) * b == a * b + b
    ensures a >= 0 && b >= 0 ==> a * b >= 0
  {
  }

  /**
   * With a positive `per_page`, the pages `1..total_pages` laid end to end give
   * back the filtered listing: every item is on exactly one page, in order.
   */
  lemma PagesPartition(items: seq<Entry>, perPage: int)
    requires perPage > 0
    ensures var tp := TotalPages(|items|, perPage).value;
      |items| > 0 ==> FirstPages(items, perPage, tp) == items
  {
    if |items| > 0 {
      var tp := TotalPages(|items|, perPage).value;
      assert (tp - 1) * perPage == perPage * (tp - 1);
      FirstPagesPrefix(items, perPage, tp);
      assert tp * perPage == perPage * tp;
    }
  }

  /** Item `i` of the filtered listing sits at offset `i % per_page` of page `i // per_page + 1`. */
  lemma ItemOnItsPage(items: seq<Entry>, perPage: int, i: nat)
    requires perPage > 0 && i < |items|
    ensures var p := i / perPage + 1;
      p <= TotalPages(|items|, perPage).value
      && i % perPage < |PageSlice(items, p, perPage)|
      && PageSlice(items, p, perPage)[i % perPage] == items[i]
  {
    var q := i / perPage;
    var lo := q * perPage;
    DivModSplit(i, perPage);
    PageOfItemBound(|items|, perPage, i);
    MulSucc(q, perPage);
    assert (q + 1 - 1) * perPage == lo;
    assert PageSlice(items, q + 1, perPage) == items[lo..Min(lo + perPage, |items|)];
  }

  lemma DivModSplit(i: nat, d: int)
    requires d > 0
    ensures (i / d) * d + i % d == i && 0 <= i % d < d && i / d >= 0
  {
  }

  lemma PageOfItemBound(n: nat, perPage: int, i: nat)
    requires perPage > 0 && i < n
    ensures i / perPage + 1 <= TotalPages(n, perPage).value
  {
    var q := i / perPage;
    var tp := TotalPages(n, perPage).value;
    DivModSplit(i, perPage);
    if q + 1 > tp {
      MulStep(perPage, tp - 1, q);
    }
  }

  // ---------------------------------------------------------------------------
  // `list_cached_content`
  // ---------------------------------------------------------------------------

  /** A listed record as `list_cached_content` sees it: keys may be missing. */
  datatype CachedItem = CachedItem(
    id: Option<string>,
    storagePath: Option<string>,
    path: Option<string>,
    displayPath: Option<string>)

  /** Python `a or b` on strings. */
  function OrElse(a: string, b: string): string {
    if a != "" then a else b
  }

  /**
   * A record without an `id` gets `_storage_path` minus every `cache/`, or its
   * `path` when that is empty; the display path is the storage path (or else
   * the path) minus every `cache/`.
   */
  function ShowCachedItem(it: CachedItem): (r: CachedItem)
    ensures r.id.Some?
    ensures it.id.Some? ==> r.id == it.id
    ensures (it.id.None? && it.storagePath.Some? && !Contains(it.storagePath.value, "cache/")
             && it.storagePath.value != "") ==> r.id == it.storagePath
    ensures it.id.None? && it.storagePath.Some? && ReplaceAll(it.storagePath.value, "cache/", "") != "" ==>
              r.id == Some(ReplaceAll(it.storagePath.value, "cache/", ""))
    ensures it.id.None? && (it.storagePath.None? || ReplaceAll(it.storagePath.value, "cache/", "") == "") ==>
              r.id == Some(it.path.GetOr(""))
    ensures it.storagePath.Some? ==> r.displayPath == Some(ReplaceAll(it.storagePath.value, "cache/", ""))
    ensures it.storagePath.None? && it.path.Some? ==> r.displayPath == Some(ReplaceAll(it.path.value, "cache/", ""))
    ensures it.storagePath.None? && it.path.None? ==> r.displayPath == it.displayPath
    ensures r.storagePath == it.storagePath && r.path == it.path
  {
    var id := if it.id.Some? then it.id
              else Some(OrElse(ReplaceAll(it.storagePath.GetOr(""), "cache/", ""), it.path.GetOr("")));
    var display := if it.storagePath.Some? then Some(ReplaceAll(it.storagePath.value, "cache/", ""))
                   else if it.path.Some? then Some(ReplaceAll(it.path.value, "cache/", ""))
                   else it.displayPath;
    CachedItem(id, it.storagePath, it.path, display)
  }

  /** `list_cached_content`: `None` entries are dropped, the rest are shown in order. */
  function ListCached(items: seq<Option<CachedItem>>): (r: seq<CachedItem>)
    ensures |r| == Seqs.Count(items, (o: Option<CachedItem>) => o.Some?)
    ensures forall i :: 0 <= i < |r| ==> r[i].id.Some?
    decreases |items|
  {
    if |items| == 0 then []
    else
      var rest := ListCached(items[1..]);
      match items[0]
      case None => rest
      case Some(it) => [ShowCachedItem(it)] + rest
  }

  /** An entry of the cached listing as shown, or `None` when the entry is `None`. */
  function Shown(): Option<CachedItem> -> Option<CachedItem> {
    (o: Option<CachedItem>) => if o.Some? then Some(ShowCachedItem(o.value)) else None
  }

  /** The route's loop is the comprehension that shows every present entry and skips the rest. */
  lemma {:induction false} ListCachedIsChoose(items: seq<Option<CachedItem>>)
    ensures ListCached(items) == Seqs.Choose(items, Shown())
    decreases |items|
  {
    if |items| > 0 {
      ListCachedIsChoose(items[1..]);
    }
  }

  /** `x` is some present entry of the listing, shown. */
  predicate ShownEntry(items: seq<Option<CachedItem>>, x: CachedItem) {
    exists j :: 0 <= j < |items| && items[j].Some? && x == ShowCachedItem(items[j].value)
  }

  /** Every shown record is a present entry shown, and every present entry is shown. */
  lemma ListCachedMembers(items: seq<Option<CachedItem>>)
    ensures forall i :: 0 <= i < |ListCached(items)| ==> ShownEntry(items, ListCached(items)[i])
    ensures forall j :: 0 <= j < |items| && items[j].Some? ==> ShowCachedItem(items[j].value) in ListCached(items)
  {
    ListCachedIsChoose(items);
    var r := ListCached(items);
    forall i | 0 <= i < |r| ensures ShownEntry(items, r[i]) {
      var j :| 0 <= j < |items| && Shown()(items[j]) == Some(r[i]);
      assert items[j].Some? && r[i] == ShowCachedItem(items[j].value);
    }
    forall j | 0 <= j < |items| && items[j].Some? ensures ShowCachedItem(items[j].value) in r {
      assert Shown()(items[j]).Some?;
    }
  }

  /** The shown records follow the listing: the route distributes over concatenation, one record at a time. */
  lemma ListCachedInOrder(a: seq<Option<CachedItem>>, b: seq<Option<CachedItem>>, it: CachedItem)
    ensures ListCached(a + b) == ListCached(a) + ListCached(b)
    ensures ListCached([None]) == []
    ensures ListCached([Some(it)]) == [ShowCachedItem(it)]
  {
    ListCachedIsChoose(a + b);
    ListCachedIsChoose(a);
    ListCachedIsChoose(b);
    Seqs.ChooseAppend(a, b, Shown());
    ListCachedIsChoose([None]);
    Seqs.ChooseOne(None, Shown());
    ListCachedIsChoose([Some(it)]);
    Seqs.ChooseOne(Some(it), Shown());
  }
}
