/**
 * Virtual folders of `services/utils/cache.py`. A folder is a `/`-separated
 * path written on item metadata; folders that hold no item yet are kept in a
 * persisted set of empty folders. The folder tree shown to users is derived
 * from both.
 */
module Folders {
  import opened Wrappers
  import opened PyText
  import opened Items
  import Seqs
  import StableSort

  /** One entry of the folder tree; the root entry carries no parent. */
  datatype Folder = Folder(path: string, name: string, parent: Option<string>)

  const RootFolder: Folder := Folder("", "Root", None)

  function Paths(fs: seq<Folder>): set<string> {
    set i | 0 <= i < |fs| :: fs[i].path
  }

  /** `any(f['path'] == p for f in fs)`. */
  predicate HasPath(fs: seq<Folder>, p: string) {
    p in Paths(fs)
  }

  predicate UniquePaths(fs: seq<Folder>) {
    forall i, j :: 0 <= i < j < |fs| ==> fs[i].path != fs[j].path
  }

  function Elems(s: seq<string>): set<string> {
    set i | 0 <= i < |s| :: s[i]
  }

  lemma PathsAppend(fs: seq<Folder>, f: Folder)
    ensures Paths(fs + [f]) == Paths(fs) + {f.path}
  {
    var r := fs + [f];
    assert r[|fs|] == f;
    forall p | p in Paths(fs) ensures p in Paths(r) {
      var i :| 0 <= i < |fs| && fs[i].path == p;
      assert r[i] == fs[i];
    }
  }

  lemma PathsPrefix(fs: seq<Folder>, r: seq<Folder>)
    requires fs <= r
    ensures Paths(fs) <= Paths(r)
  {
    forall p | p in Paths(fs) ensures p in Paths(r) {
      var i :| 0 <= i < |fs| && fs[i].path == p;
      assert r[i] == fs[i];
    }
  }

  // ---------------------------------------------------------------------------
  // Path segments and ancestors
  // ---------------------------------------------------------------------------

  predicate NonEmptyPart(p: string) {
    p != ""
  }

  /** The non-empty `/`-separated segments of a path, in order. */
  function Segments(x: string): (ne: seq<string>)
    ensures forall k :: 0 <= k < |ne| ==> ne[k] != "" && !Contains(ne[k], "/")
  {
    var parts := Split(x, "/");
    var ne := Seqs.Filter(parts, NonEmptyPart);
    assert forall k :: 0 <= k < |ne| ==> ne[k] in parts;
    ne
  }

  /** The paths `acc/ne[0]`, `acc/ne[0]/ne[1]`, … built one segment at a time. */
  function PrefixPathsAfter(acc: seq<string>, ne: seq<string>): (r: seq<string>)
    ensures |r| == |ne|
  {
    seq(|ne|, j requires 0 <= j < |ne| => Join(acc + ne[..j + 1], "/"))
  }

  /**
   * The normalised ancestors of `x`, ending with `x` itself when it has no empty
   * segment: for `a//b/` these are `a` and `a/b`.
   */
  function Ancestry(x: string): seq<string> {
    PrefixPathsAfter([], Segments(x))
  }

  /** The normalised ancestors of the parent of `x` (all segments but the last). */
  function ParentAncestry(x: string): seq<string> {
    var parts := Split(x, "/");
    PrefixPathsAfter([], Seqs.Filter(parts[..|parts| - 1], NonEmptyPart))
  }

  /** One step of the loop that rebuilds a path segment by segment. */
  function Extend(current: string, part: string): string {
    if current != "" then current + "/" + part else part
  }

  lemma JoinNonEmpty(ps: seq<string>)
    requires |ps| > 0 && ps[0] != ""
    ensures Join(ps, "/") != ""
  {
  }

  lemma {:induction false} ExtendJoin(acc: seq<string>, p: string)
    requires forall k :: 0 <= k < |acc| ==> acc[k] != ""
    requires p != ""
    ensures Extend(Join(acc, "/"), p) == Join(acc + [p], "/")
    decreases |acc|
  {
    if |acc| == 1 {
      assert (acc + [p])[1..] == [p];
    } else if |acc| > 1 {
      ExtendJoin(acc[1..], p);
      JoinNonEmpty(acc[1..]);
      assert (acc + [p])[1..] == acc[1..] + [p];
    }
  }

  lemma PrefixPathsAfterCons(acc: seq<string>, p: string, ne: seq<string>)
    ensures PrefixPathsAfter(acc, [p] + ne)
         == [Join(acc + [p], "/")] + PrefixPathsAfter(acc + [p], ne)
  {
    var l := PrefixPathsAfter(acc, [p] + ne);
    var r := [Join(acc + [p], "/")] + PrefixPathsAfter(acc + [p], ne);
    assert ([p] + ne)[..1] == [p];
    forall j | 1 <= j < |l| ensures l[j] == r[j] {
      assert acc + ([p] + ne)[..j + 1] == (acc + [p]) + ne[..j];
    }
  }

  /** Splitting a `/`-join of `/`-free pieces gives the pieces back. */
  lemma {:induction false} SplitJoin(ps: seq<string>)
    requires |ps| >= 1
    requires forall k :: 0 <= k < |ps| ==> !Contains(ps[k], "/")
    ensures Split(Join(ps, "/"), "/") == ps
    decreases |ps|
  {
    var s := Join(ps, "/");
    if |ps| == 1 {
      var parts := Split(s, "/");
      assert Join(parts, "/") == parts[0];
    } else {
      var a := ps[0];
      var rest := Join(ps[1..], "/");
      assert s == a + "/" + rest;
      FirstSlash(a, rest);
      SplitJoin(ps[1..]);
      assert Split(s, "/") == [a] + Split(rest, "/") by {
        assert s[..|a|] == a;
        assert s[|a| + 1..] == rest;
      }
      assert ps == [a] + ps[1..];
    }
  }

  /** In `a/rest` with no `/` in `a`, the first `/` is the one after `a`. */
  lemma FirstSlash(a: string, rest: string)
    requires !Contains(a, "/")
    ensures Find(a + "/" + rest, "/") == Some(|a|)
  {
    var s := a + "/" + rest;
    assert OccursAt(s, "/", |a|) by {
      assert s[|a|..|a| + 1] == "/";
    }
    forall j | 0 <= j < |a| ensures !OccursAt(s, "/", j) {
      assert s[j..j + 1] == a[j..j + 1];
      assert !OccursAt(a, "/", j);
    }
  }

  /** The segments of a normalised path are the pieces it was joined from. */
  lemma SegmentsOfJoin(ne: seq<string>)
    requires |ne| >= 1
    requires forall k :: 0 <= k < |ne| ==> ne[k] != "" && !Contains(ne[k], "/")
    ensures Segments(Join(ne, "/")) == ne
  {
    SplitJoin(ne);
    Seqs.FilterAll(ne, NonEmptyPart);
  }

  /** The rebuilt paths of a prefix of the segments are a prefix of the rebuilt paths. */
  lemma PrefixPathsOfPrefix(ne: seq<string>, m: nat)
    requires m <= |ne|
    ensures PrefixPathsAfter([], ne[..m]) == PrefixPathsAfter([], ne)[..m]
  {
    forall i | 0 <= i < m
      ensures PrefixPathsAfter([], ne[..m])[i] == PrefixPathsAfter([], ne)[i]
    {
      assert [] + ne[..m][..i + 1] == ne[..i + 1] == [] + ne[..i + 1];
    }
  }

  /** Every ancestor of `x` has as its own ancestors a prefix of those of `x`. */
  lemma AncestryClosed(x: string, j: int)
    requires 0 <= j < |Ancestry(x)|
    ensures Ancestry(Ancestry(x)[j]) == Ancestry(x)[..j + 1]
  {
    var ne := Segments(x);
    assert [] + ne[..j + 1] == ne[..j + 1];
    assert Ancestry(x)[j] == Join(ne[..j + 1], "/");
    SegmentsOfJoin(ne[..j + 1]);
    PrefixPathsOfPrefix(ne, j + 1);
  }

  /** The parent's ancestors are the ancestors of `x` less the last one. */
  lemma ParentAncestryPrefix(x: string)
    ensures |ParentAncestry(x)| <= |Ancestry(x)|
    ensures ParentAncestry(x) == Ancestry(x)[..|ParentAncestry(x)|]
  {
    var parts := Split(x, "/");
    var a := parts[..|parts| - 1];
    var b := [parts[|parts| - 1]];
    assert parts == a + b;
    Seqs.FilterAppend(a, b, NonEmptyPart);
    var fa := Seqs.Filter(a, NonEmptyPart);
    var fb := Seqs.Filter(b, NonEmptyPart);
    forall j | 0 <= j < |fa|
      ensures ParentAncestry(x)[j] == Ancestry(x)[j]
    {
      assert (fa + fb)[..j + 1] == fa[..j + 1];
    }
  }

  lemma AncestryOfRoot()
    ensures Ancestry("") == []
  {
    assert !Contains("", "/");
    var parts := Split("", "/");
    assert parts == [""];
  }

  // ---------------------------------------------------------------------------
  // Building the tree
  // ---------------------------------------------------------------------------

  /**
   * The loop shared by `_sync_reload_folder_cache` and `_ensure_folder_exists`:
   * walk the segments of a split path from index `i`, rebuilding the path in
   * `current`, and append every rebuilt path that is not yet listed. The parent
   * recorded is the raw join of the segments before this one.
   */
  function AddPathParts(fs: seq<Folder>, parts: seq<string>, i: nat, current: string): (r: seq<Folder>)
    requires i <= |parts|
    ensures fs <= r
    ensures UniquePaths(fs) ==> UniquePaths(r)
    decreases |parts| - i
  {
    if i == |parts| then fs
    else if parts[i] == "" then AddPathParts(fs, parts, i + 1, current)
    else
      var cur := Extend(current, parts[i]);
      AddPathParts(Grow(fs, Folder(cur, parts[i], Some(Join(parts[..i], "/")))), parts, i + 1, cur)
  }

  /** `f` appended unless its path is already listed. */
  function Grow(fs: seq<Folder>, f: Folder): (r: seq<Folder>)
    ensures fs <= r
    ensures Paths(r) == Paths(fs) + {f.path}
    ensures UniquePaths(fs) ==> UniquePaths(r)
  {
    if HasPath(fs, f.path) then fs
    else
      PathsAppend(fs, f);
      assert UniquePaths(fs) ==> UniquePaths(fs + [f]) by {
        assert forall k :: 0 <= k < |fs| ==> fs[k].path in Paths(fs);
      }
      fs + [f]
  }

  /** The loop adds exactly the rebuilt paths of the remaining segments. */
  lemma {:induction false} AddPathPartsPaths(fs: seq<Folder>, parts: seq<string>, i: nat, acc: seq<string>)
    requires i <= |parts|
    requires forall k :: 0 <= k < |acc| ==> acc[k] != ""
    ensures Paths(AddPathParts(fs, parts, i, Join(acc, "/")))
         == Paths(fs) + Elems(PrefixPathsAfter(acc, Seqs.Filter(parts[i..], NonEmptyPart)))
    decreases |parts| - i, 1
  {
    if i < |parts| {
      var rest := parts[i..];
      assert rest[0] == parts[i] && rest[1..] == parts[i + 1..];
      if parts[i] == "" {
        AddPathPartsPaths(fs, parts, i + 1, acc);
      } else {
        AddPathPartsSegment(fs, parts, i, acc);
      }
    }
  }

  /** The step of `AddPathPartsPaths` for a non-empty segment. */
  lemma {:induction false} AddPathPartsSegment(fs: seq<Folder>, parts: seq<string>, i: nat, acc: seq<string>)
    requires i < |parts| && parts[i] != ""
    requires forall k :: 0 <= k < |acc| ==> acc[k] != ""
    ensures Paths(AddPathParts(fs, parts, i, Join(acc, "/")))
         == Paths(fs) + Elems(PrefixPathsAfter(acc, Seqs.Filter(parts[i..], NonEmptyPart)))
    decreases |parts| - i, 0
  {
    var p := parts[i];
    var cur := Extend(Join(acc, "/"), p);
    ExtendJoin(acc, p);
    var next := Grow(fs, Folder(cur, p, Some(Join(parts[..i], "/"))));
    assert AddPathParts(fs, parts, i, Join(acc, "/")) == AddPathParts(next, parts, i + 1, cur);
    AddPathPartsPaths(next, parts, i + 1, acc + [p]);
    PrefixPathsStep(parts, i, acc);
    UnionStep(Paths(AddPathParts(fs, parts, i, Join(acc, "/"))), Paths(next), Paths(fs), cur,
              Elems(PrefixPathsAfter(acc + [p], Seqs.Filter(parts[i + 1..], NonEmptyPart))),
              Elems(PrefixPathsAfter(acc, Seqs.Filter(parts[i..], NonEmptyPart))));
  }

  lemma UnionStep(whole: set<string>, next: set<string>, before: set<string>, cur: string,
                  later: set<string>, added: set<string>)
    requires whole == next + later && next == before + {cur} && added == {cur} + later
    ensures whole == before + added
  {
  }

  /** A non-empty segment contributes its rebuilt path ahead of those of the later segments. */
  lemma PrefixPathsStep(parts: seq<string>, i: nat, acc: seq<string>)
    requires i < |parts| && parts[i] != ""
    ensures Elems(PrefixPathsAfter(acc, Seqs.Filter(parts[i..], NonEmptyPart)))
         == {Join(acc + [parts[i]], "/")} + Elems(PrefixPathsAfter(acc + [parts[i]], Seqs.Filter(parts[i + 1..], NonEmptyPart)))
  {
    var p := parts[i];
    var rest := parts[i..];
    assert rest[0] == p && rest[1..] == parts[i + 1..];
    var ne := Seqs.Filter(parts[i + 1..], NonEmptyPart);
    assert Seqs.Filter(rest, NonEmptyPart) == [p] + ne;
    PrefixPathsAfterCons(acc, p, ne);
    var whole := PrefixPathsAfter(acc, [p] + ne);
    assert whole[1..] == PrefixPathsAfter(acc + [p], ne);
    ElemsCons(whole);
  }

  /** Walking all the segments of `x` adds exactly its ancestors. */
  lemma AddAncestry(fs: seq<Folder>, x: string)
    ensures Paths(AddPathParts(fs, Split(x, "/"), 0, "")) == Paths(fs) + Elems(Ancestry(x))
  {
    var parts := Split(x, "/");
    AddPathPartsPaths(fs, parts, 0, []);
    assert parts[0..] == parts;
  }

  /** Walking all but the last segment of `x` adds exactly its parent's ancestors. */
  lemma AddParentAncestry(fs: seq<Folder>, x: string)
    ensures var parts := Split(x, "/");
      Paths(AddPathParts(fs, parts[..|parts| - 1], 0, "")) == Paths(fs) + Elems(ParentAncestry(x))
  {
    var parts := Split(x, "/");
    AddPathPartsPaths(fs, parts[..|parts| - 1], 0, []);
    assert parts[..|parts| - 1][0..] == parts[..|parts| - 1];
  }

  /** First pass: the folders of the listed items, in listing order. */
  function AddItemFolders(fs: seq<Folder>, xs: seq<string>): (r: seq<Folder>)
    ensures fs <= r
    ensures UniquePaths(fs) ==> UniquePaths(r)
    decreases |xs|
  {
    if |xs| == 0 then fs
    else
      var x := xs[0];
      var next := if x != "" && !HasPath(fs, x) then AddPathParts(fs, Split(x, "/"), 0, "") else fs;
      AddItemFolders(next, xs[1..])
  }

  /**
   * The entry for an empty folder is the raw path, named after its last
   * segment, with the raw join of the other segments as parent.
   */
  function EmptyFolderEntry(e: string): (f: Folder)
    ensures f.path == e
  {
    var parts := Split(e, "/");
    Folder(e, parts[|parts| - 1], Some(Join(parts[..|parts| - 1], "/")))
  }

  /** One empty folder `e`: its entry and its parent's ancestors, unless already listed. */
  function AddEmptyFolder(fs: seq<Folder>, e: string): (r: seq<Folder>)
    ensures fs <= r
    ensures UniquePaths(fs) ==> UniquePaths(r)
  {
    if e != "" && !HasPath(fs, e) then
      var parts := Split(e, "/");
      var withEntry := fs + [EmptyFolderEntry(e)];
      assert UniquePaths(fs) ==> UniquePaths(withEntry) by {
        assert forall k :: 0 <= k < |fs| ==> fs[k].path in Paths(fs);
      }
      AddPathParts(withEntry, parts[..|parts| - 1], 0, "")
    else fs
  }

  /** Second pass: the empty folders in the set's iteration order. */
  function AddEmptyFolders(fs: seq<Folder>, es: seq<string>): (r: seq<Folder>)
    ensures fs <= r
    ensures UniquePaths(fs) ==> UniquePaths(r)
    decreases |es|
  {
    if |es| == 0 then fs else AddEmptyFolders(AddEmptyFolder(fs, es[0]), es[1..])
  }

  function PathKey(f: Folder): seq<int> {
    StableSort.StrKey(f.path)
  }

  /**
   * `_sync_reload_folder_cache`: the root, then the folders of the listed items,
   * then the empty folders (in the set's iteration order `empties`), sorted by
   * path.
   */
  function FolderTree(entries: seq<Entry>, empties: seq<string>): seq<Folder> {
    var itemFolders := Seqs.Map(entries, (e: Entry) => e.folder);
    var unsorted := AddEmptyFolders(AddItemFolders([RootFolder], itemFolders), empties);
    StableSort.SortBy(unsorted, PathKey)
  }

  // ---------------------------------------------------------------------------
  // What the tree contains
  // ---------------------------------------------------------------------------

  /** Every listed path is ancestor-closed, except raw empty folders in `raw`. */
  ghost predicate Closed(fs: seq<Folder>, raw: set<string>) {
    (forall q :: q in Paths(fs) ==> q in raw || Elems(Ancestry(q)) <= Paths(fs))
    && (forall e :: e in raw && e != "" ==> e in Paths(fs) && Elems(ParentAncestry(e)) <= Paths(fs))
  }

  /** The ancestors of every path in `xs`. */
  ghost function AncestrySet(xs: seq<string>): set<string>
    decreases |xs|
  {
    if |xs| == 0 then {} else Elems(Ancestry(xs[0])) + AncestrySet(xs[1..])
  }

  /** Every non-empty path in `es` with the ancestors of its parent. */
  ghost function EmptySet(es: seq<string>): set<string>
    decreases |es|
  {
    if |es| == 0 then {}
    else (if es[0] != "" then {es[0]} + Elems(ParentAncestry(es[0])) else {}) + EmptySet(es[1..])
  }

  /** Adding the ancestors of `x` keeps the listing ancestor-closed. */
  lemma ClosedAddAncestry(fs: seq<Folder>, r: seq<Folder>, raw: set<string>, x: string)
    requires Closed(fs, raw)
    requires Paths(r) == Paths(fs) + Elems(Ancestry(x))
    ensures Closed(r, raw)
  {
    forall q | q in Paths(r) && q !in raw
      ensures Elems(Ancestry(q)) <= Paths(r)
    {
      if q !in Paths(fs) {
        var j :| 0 <= j < |Ancestry(x)| && Ancestry(x)[j] == q;
        AncestryClosed(x, j);
      }
    }
  }

  lemma {:induction false} ItemFoldersPaths(fs: seq<Folder>, xs: seq<string>)
    requires Closed(fs, {})
    ensures Paths(AddItemFolders(fs, xs)) == Paths(fs) + AncestrySet(xs)
    ensures Closed(AddItemFolders(fs, xs), {})
    decreases |xs|
  {
    if |xs| > 0 {
      var x := xs[0];
      if x != "" && !HasPath(fs, x) {
        var next := AddPathParts(fs, Split(x, "/"), 0, "");
        AddAncestry(fs, x);
        ClosedAddAncestry(fs, next, {}, x);
        ItemFoldersPaths(next, xs[1..]);
      } else {
        if x == "" {
          AncestryOfRoot();
        }
        ItemFoldersPaths(fs, xs[1..]);
      }
    }
  }

  /** What one empty folder contributes: itself and its parent's ancestors. */
  ghost function EmptyContribution(e: string): set<string> {
    if e != "" then {e} + Elems(ParentAncestry(e)) else {}
  }

  lemma EmptyFolderPaths(fs: seq<Folder>, e: string, raw: set<string>)
    requires Closed(fs, raw)
    ensures Paths(AddEmptyFolder(fs, e)) == Paths(fs) + EmptyContribution(e)
    ensures Closed(AddEmptyFolder(fs, e), raw + {e})
  {
    if e != "" && !HasPath(fs, e) {
      EmptyFolderAdded(fs, e, raw);
    } else {
      EmptyFolderSkipped(fs, e, raw);
    }
  }

  lemma EmptyFolderAdded(fs: seq<Folder>, e: string, raw: set<string>)
    requires Closed(fs, raw)
    requires e != "" && !HasPath(fs, e)
    ensures Paths(AddEmptyFolder(fs, e)) == Paths(fs) + {e} + Elems(ParentAncestry(e))
    ensures Closed(AddEmptyFolder(fs, e), raw + {e})
  {
    var withEntry := fs + [EmptyFolderEntry(e)];
    PathsAppend(fs, EmptyFolderEntry(e));
    AddParentAncestry(withEntry, e);
    ClosedAddParentAncestry(fs, AddEmptyFolder(fs, e), raw, e);
  }

  /** Adding a raw folder with its parent's ancestors keeps the listing closed. */
  lemma ClosedAddParentAncestry(fs: seq<Folder>, r: seq<Folder>, raw: set<string>, e: string)
    requires Closed(fs, raw)
    requires Paths(r) == Paths(fs) + {e} + Elems(ParentAncestry(e))
    ensures Closed(r, raw + {e})
  {
    forall q | q in Paths(r) && q !in raw + {e}
      ensures Elems(Ancestry(q)) <= Paths(r)
    {
      if q !in Paths(fs) {
        ParentAncestorClosed(e, q);
      }
    }
  }

  /** The ancestors of an ancestor of `e`'s parent are ancestors of that parent too. */
  lemma ParentAncestorClosed(e: string, q: string)
    requires q in Elems(ParentAncestry(e))
    ensures Elems(Ancestry(q)) <= Elems(ParentAncestry(e))
  {
    var pa := ParentAncestry(e);
    var j :| 0 <= j < |pa| && pa[j] == q;
    assert Ancestry(q) == pa[..j + 1] by {
      ParentAncestryPrefix(e);
      assert Ancestry(e)[j] == q;
      AncestryClosed(e, j);
    }
    ElemsPrefix(pa, j + 1);
  }

  lemma ElemsPrefix(s: seq<string>, n: nat)
    requires n <= |s|
    ensures Elems(s[..n]) <= Elems(s)
  {
    forall y | y in Elems(s[..n]) ensures y in Elems(s) {
      var k :| 0 <= k < n && s[..n][k] == y;
      assert s[k] == y;
    }
  }

  lemma EmptyFolderSkipped(fs: seq<Folder>, e: string, raw: set<string>)
    requires Closed(fs, raw)
    requires !(e != "" && !HasPath(fs, e))
    ensures Paths(fs) + EmptyContribution(e) == Paths(fs)
    ensures Closed(fs, raw + {e})
  {
    ParentAncestryPrefix(e);
    if e != "" && e !in raw {
      assert Elems(Ancestry(e)) <= Paths(fs);
      assert Elems(ParentAncestry(e)) <= Elems(Ancestry(e));
    }
  }

  lemma ElemsCons(es: seq<string>)
    requires |es| > 0
    ensures Elems(es) == {es[0]} + Elems(es[1..])
  {
    forall y | y in Elems(es) ensures y in {es[0]} + Elems(es[1..]) {
      var j :| 0 <= j < |es| && es[j] == y;
      if j > 0 { assert es[1..][j - 1] == y; }
    }
    forall y | y in Elems(es[1..]) ensures y in Elems(es) {
      var j :| 0 <= j < |es[1..]| && es[1..][j] == y;
      assert es[j + 1] == y;
    }
    assert es[0] in Elems(es);
  }

  lemma {:induction false} EmptyFoldersPaths(fs: seq<Folder>, es: seq<string>, raw: set<string>)
    requires Closed(fs, raw)
    ensures Paths(AddEmptyFolders(fs, es)) == Paths(fs) + EmptySet(es)
    ensures Closed(AddEmptyFolders(fs, es), raw + Elems(es))
    decreases |es|
  {
    if |es| == 0 {
      assert Elems(es) == {};
    } else {
      ElemsCons(es);
      assert raw + Elems(es) == (raw + {es[0]}) + Elems(es[1..]);
      EmptyFolderPaths(fs, es[0], raw);
      EmptyFoldersPaths(AddEmptyFolder(fs, es[0]), es[1..], raw + {es[0]});
      assert EmptySet(es) == EmptyContribution(es[0]) + EmptySet(es[1..]);
    }
  }

  lemma RootClosed()
    ensures Closed([RootFolder], {})
    ensures Paths([RootFolder]) == {""}
    ensures UniquePaths([RootFolder])
  {
    AncestryOfRoot();
    assert [RootFolder][0].path == "";
  }

  lemma SortedPaths(fs: seq<Folder>)
    ensures Paths(StableSort.SortBy(fs, PathKey)) == Paths(fs)
  {
    var r := StableSort.SortBy(fs, PathKey);
    forall p | p in Paths(fs) ensures p in Paths(r) {
      var i :| 0 <= i < |fs| && fs[i].path == p;
      assert fs[i] in multiset(r);
    }
    forall p | p in Paths(r) ensures p in Paths(fs) {
      var i :| 0 <= i < |r| && r[i].path == p;
      assert r[i] in multiset(fs);
    }
  }

  lemma UniqueKeys(fs: seq<Folder>)
    ensures UniquePaths(fs) <==> StableSort.KeysDistinct(fs, PathKey)
  {
    forall i, j | 0 <= i < j < |fs| && PathKey(fs[i]) == PathKey(fs[j])
      ensures fs[i].path == fs[j].path
    {
      StableSort.StrKeyInjective(fs[i].path, fs[j].path);
    }
  }

  /**
   * The derived tree lists the root, every normalised ancestor of every item
   * folder, and every non-empty empty folder with the ancestors of its parent,
   * and nothing else; no path is listed twice and the list is sorted by path.
   */
  lemma FolderTreeContents(entries: seq<Entry>, empties: seq<string>)
    ensures var r := FolderTree(entries, empties);
      Paths(r) == {""} + AncestrySet(Seqs.Map(entries, (e: Entry) => e.folder)) + EmptySet(empties)
      && UniquePaths(r)
      && StableSort.Sorted(r, PathKey)
  {
    var itemFolders := Seqs.Map(entries, (e: Entry) => e.folder);
    var first := AddItemFolders([RootFolder], itemFolders);
    var unsorted := AddEmptyFolders(first, empties);
    RootClosed();
    ItemFoldersPaths([RootFolder], itemFolders);
    EmptyFoldersPaths(first, empties, {});
    SortedPaths(unsorted);
    UniqueKeys(unsorted);
    StableSort.SortKeysDistinct(unsorted, PathKey);
    UniqueKeys(StableSort.SortBy(unsorted, PathKey));
  }
}
