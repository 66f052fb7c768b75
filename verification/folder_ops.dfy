/**
 * The folder operations of `services/utils/cache.py`: `create_folder`,
 * `_ensure_folder_exists`, `move_item_to_folder`, `rename_folder` and
 * `delete_folder`, over the persistent state (item metadata and the set of
 * empty folders). Each takes the folder list `get_folders()` returned and, for
 * rename and delete, the listing `get_available_indexes()` returned.
 */
module FolderOps {
  import opened Wrappers
  import opened PyText
  import opened Items
  import Seqs
  import opened Folders

  /** What the folder operations change: item metadata and the empty folders. */
  datatype State = State(store: Store, empty: set<string>)

  /**
   * The state an operation leaves and what it returns or raises. An exception
   * part-way through keeps the metadata writes made before it.
   */
  datatype Outcome<T> = Outcome(state: State, result: Result<T>)

  /** `f"{parent}/{name}" if parent else name`. */
  function FolderPath(parent: string, name: string): string {
    if parent != "" then parent + "/" + name else name
  }

  /** `'/'.join(path.split('/')[:-1])`: everything before the last `/`, or `""`. */
  function ParentOf(path: string): string {
    var parts := Split(path, "/");
    Join(parts[..|parts| - 1], "/")
  }

  /** The folder an item's metadata names, `""` when the key is absent. */
  function FolderOf(m: Meta): string {
    m.folder.GetOr("")
  }

  /** The test rename and delete use: the folder itself or a path below it. */
  predicate AtOrUnder(f: string, path: string) {
    f == path || StartsWith(f, path + "/")
  }

  // ---------------------------------------------------------------------------
  // create_folder and _ensure_folder_exists
  // ---------------------------------------------------------------------------

  /**
   * `create_folder(name, parent)`: a missing parent is an error; a folder that
   * is already listed is returned as it is; otherwise the new path is recorded
   * as an empty folder.
   */
  function CreateFolder(st: State, folders: seq<Folder>, name: string, parent: string): (r: Outcome<string>)
    ensures r.state.store == st.store
    ensures r.result.Err? <==> parent != "" && !HasPath(folders, parent)
    ensures r.result.Ok? ==> r.result.value == FolderPath(parent, name)
    ensures r.result.Err? || HasPath(folders, FolderPath(parent, name)) ==> r.state == st
    ensures (r.result.Ok? && !HasPath(folders, FolderPath(parent, name)))
              ==> r.state.empty == st.empty + {FolderPath(parent, name)}
  {
    var full := FolderPath(parent, name);
    if parent != "" && !HasPath(folders, parent) then
      Outcome(st, Err("Parent folder " + parent + " does not exist"))
    else if HasPath(folders, full) then Outcome(st, Ok(full))
    else Outcome(st.(empty := st.empty + {full}), Ok(full))
  }

  /** A folder created under a non-root parent lies below that parent. */
  lemma CreatedUnderParent(st: State, folders: seq<Folder>, name: string, parent: string)
    requires parent != ""
    requires CreateFolder(st, folders, name, parent).result.Ok?
    ensures Under(CreateFolder(st, folders, name, parent).result.value, parent)
  {
    ChildUnder(parent, name);
  }

  lemma {:induction false} EmptySetHas(es: seq<string>, k: nat)
    requires k < |es| && es[k] != ""
    ensures es[k] in EmptySet(es)
    decreases k
  {
    if k > 0 {
      EmptySetHas(es[1..], k - 1);
    }
  }

  /**
   * Once the folder set is saved, the next reload of the tree lists a newly
   * created folder, with whatever items there are.
   */
  lemma CreatedFolderInTree(st: State, folders: seq<Folder>, name: string, parent: string,
                            entries: seq<Entry>, empties: seq<string>)
    requires CreateFolder(st, folders, name, parent).result.Ok?
    requires FolderPath(parent, name) != ""
    requires Elems(empties) == CreateFolder(st, folders, name, parent).state.empty
    requires !HasPath(folders, FolderPath(parent, name))
    ensures HasPath(FolderTree(entries, empties), FolderPath(parent, name))
  {
    var full := FolderPath(parent, name);
    assert full in Elems(empties);
    var k :| 0 <= k < |empties| && empties[k] == full;
    EmptySetHas(empties, k);
    FolderTreeContents(entries, empties);
  }

  /**
   * `_ensure_folder_exists(path)` on the cached list: nothing for the root or a
   * listed path, else append the path's missing ancestors in order.
   */
  function EnsureFolder(folders: seq<Folder>, path: string): (r: seq<Folder>)
    ensures folders <= r
    ensures UniquePaths(folders) ==> UniquePaths(r)
    ensures path == "" || HasPath(folders, path) ==> r == folders
    ensures (path != "" && !HasPath(folders, path))
              ==> Paths(r) == Paths(folders) + Elems(Ancestry(path))
  {
    if path == "" || HasPath(folders, path) then folders
    else
      AddAncestry(folders, path);
      AddPathParts(folders, Split(path, "/"), 0, "")
  }

  /** On a closed list every ancestor of the path is listed afterwards. */
  lemma EnsureFolderAncestors(folders: seq<Folder>, path: string)
    requires Closed(folders, {})
    ensures Elems(Ancestry(path)) <= Paths(EnsureFolder(folders, path))
  {
    if path == "" {
      AncestryOfRoot();
    }
  }

  // ---------------------------------------------------------------------------
  // Metadata writes
  // ---------------------------------------------------------------------------

  /**
   * `_update_item_metadata(item_id, {'folder': f})`: read the record stored
   * under `item_id`, set its folder, write it back; a missing record raises.
   */
  function UpdateItemFolder(store: Store, id: string, folder: string): (r: Result<Store>)
    ensures r.Ok? <==> id in store
    ensures r.Ok? ==> r.value.Keys == store.Keys
    ensures r.Ok? ==> r.value[id].folder == Some(folder)
    ensures r.Ok? ==> r.value[id].(folder := store[id].folder) == store[id]
    ensures r.Ok? ==> forall k :: k in store && k != id ==> r.value[k] == store[k]
  {
    if id !in store then Err("Blob cache/metadata_" + id + ".pkl does not exist")
    else Ok(store[id := store[id].(folder := Some(folder))])
  }

  /**
   * The per-item loop of rename and delete: write each `(id, folder)` in turn
   * and stop at the first failure, keeping the writes made so far.
   */
  function SetFolders(store: Store, ups: seq<(string, string)>): (r: (Store, Result<()>))
    ensures r.0.Keys == store.Keys
    ensures r.1.Ok? <==> forall i :: 0 <= i < |ups| ==> ups[i].0 in store
    ensures forall k :: k in store && (forall i :: 0 <= i < |ups| ==> ups[i].0 != k) ==> r.0[k] == store[k]
    decreases |ups|
  {
    if |ups| == 0 then (store, Ok(()))
    else
      match UpdateItemFolder(store, ups[0].0, ups[0].1)
      case Err(msg) => (store, Err(msg))
      case Ok(next) =>
        var r := SetFolders(next, ups[1..]);
        assert forall i :: 1 <= i < |ups| ==> ups[1..][i - 1] == ups[i];
        r
  }

  /** With distinct ids that are all stored, every write lands. */
  lemma {:induction false} SetFoldersLands(store: Store, ups: seq<(string, string)>)
    requires forall i :: 0 <= i < |ups| ==> ups[i].0 in store
    requires forall i, j :: 0 <= i < j < |ups| ==> ups[i].0 != ups[j].0
    ensures forall i :: 0 <= i < |ups| ==>
              SetFolders(store, ups).0[ups[i].0] == store[ups[i].0].(folder := Some(ups[i].1))
    decreases |ups|
  {
    if |ups| > 0 {
      var next := UpdateItemFolder(store, ups[0].0, ups[0].1).value;
      SetFoldersLands(next, ups[1..]);
      forall i | 0 <= i < |ups|
        ensures SetFolders(store, ups).0[ups[i].0] == store[ups[i].0].(folder := Some(ups[i].1))
      {
        if i > 0 {
          assert ups[1..][i - 1] == ups[i];
        } else {
          assert forall j :: 0 <= j < |ups[1..]| ==> ups[1..][j].0 != ups[0].0;
        }
      }
    }
  }

  // ---------------------------------------------------------------------------
  // move_item_to_folder
  // ---------------------------------------------------------------------------

  /**
   * `move_item_to_folder(item_id, folder)`: set the item's folder, then drop
   * the folder from the empty set. The folder-cache update of
   * `_ensure_folder_exists` touches no persistent state.
   */
  function MoveItem(st: State, id: string, folder: string): (r: Outcome<()>)
    ensures r.result.Ok? <==> id in st.store
    ensures r.result.Err? ==> r.state == st
    ensures r.result.Ok? ==> r.state.store.Keys == st.store.Keys
    ensures r.result.Ok? ==> r.state.store[id].folder == Some(folder)
    ensures r.result.Ok? ==> r.state.empty == st.empty - {folder}
    ensures r.result.Ok? ==> forall k :: k in st.store && k != id ==> r.state.store[k] == st.store[k]
  {
    match UpdateItemFolder(st.store, id, folder)
    case Err(msg) => Outcome(st, Err(msg))
    case Ok(store) =>
      var empty := if folder in st.empty then st.empty - {folder} else st.empty;
      Outcome(State(store, empty), Ok(()))
  }

  /** A moved item is listed in its new folder and, by recursion, in every ancestor. */
  lemma MovedItemListed(st: State, id: string, folder: string, order: seq<string>, i: nat)
    requires MoveItem(st, id, folder).result.Ok?
    requires i < |order| && order[i] == id
    ensures var s := MoveItem(st, id, folder).state.store;
      ToEntry(s[id]) in ListEntries(s, order, Some(folder))
      && ToEntry(s[id]).folder == folder
  {
    var s := MoveItem(st, id, folder).state.store;
    assert !s[id].IsEmpty();
    assert Listed(s, order[i], Some(folder));
  }

  // ---------------------------------------------------------------------------
  // rename_folder and delete_folder
  // ---------------------------------------------------------------------------

  /** The folder an item or empty folder ends up in when `path` becomes `newPath`. */
  function Remap(f: string, path: string, newPath: string): string {
    if f == path then newPath
    else if StartsWith(f, path + "/") then ReplaceFirst(f, path, newPath)
    else f
  }

  /** Renaming is a prefix rewrite: the part below the folder is kept. */
  lemma RemapIsPrefixRewrite(f: string, path: string, newPath: string)
    ensures AtOrUnder(f, path) ==> Remap(f, path, newPath) == newPath + f[|path|..]
    ensures !AtOrUnder(f, path) ==> Remap(f, path, newPath) == f
    ensures AtOrUnder(f, path) ==> AtOrUnder(Remap(f, path, newPath), newPath)
  {
    if f == path {
      assert f[|path|..] == [];
      assert newPath + [] == newPath;
    } else if StartsWith(f, path + "/") {
      assert f[..|path|] == path;
      var g := newPath + f[|path|..];
      assert g[..|newPath + "/"|] == newPath + "/";
    }
  }

  /** The rows `rename_folder` and `delete_folder` act on. */
  function AffectedRows(entries: seq<Entry>, path: string): seq<Entry> {
    Seqs.Filter(entries, (e: Entry) => AtOrUnder(e.folder, path))
  }

  /**
   * The metadata writes of the per-item loop: for each row at or under `path`,
   * its `id` and the folder `h` gives its old folder.
   */
  function Writes(entries: seq<Entry>, path: string, h: string -> string): (ups: seq<(string, string)>)
    ensures |ups| == |AffectedRows(entries, path)|
    decreases |entries|
  {
    if |entries| == 0 then []
    else
      var e := entries[0];
      (if AtOrUnder(e.folder, path) then [(e.id, h(e.folder))] else []) + Writes(entries[1..], path, h)
  }

  /** The new folder of a renamed item. */
  function RenameMap(path: string, newPath: string): string -> string {
    f => Remap(f, path, newPath)
  }

  /** The new folder of an item whose folder is deleted. */
  function ParentMap(parentPath: string): string -> string {
    f => parentPath
  }

  function RenameTarget(path: string, newName: string): string {
    FolderPath(ParentOf(path), newName)
  }

  /**
   * `rename_folder(path, new_name)`: check the folder exists, is not the root
   * and that its sibling `new_name` does not; rewrite the folder of every
   * listed item at or under it, then remap the empty folders the same way.
   */
  function RenameFolder(st: State, folders: seq<Folder>, entries: seq<Entry>, path: string, newName: string)
    : (r: Outcome<string>)
    ensures (!HasPath(folders, path) || path == "" || HasPath(folders, RenameTarget(path, newName)))
              ==> r.state == st && r.result.Err?
    ensures r.result.Ok? ==> r.result.value == RenameTarget(path, newName)
    ensures r.state.store.Keys == st.store.Keys
    ensures r.result.Err? ==> r.state.empty == st.empty
  {
    if !HasPath(folders, path) then Outcome(st, Err("Folder " + path + " does not exist"))
    else if path == "" then Outcome(st, Err("Cannot rename root folder"))
    else
      var newPath := RenameTarget(path, newName);
      if HasPath(folders, newPath) then Outcome(st, Err("Folder " + newPath + " already exists"))
      else
        var ups := Writes(entries, path, RenameMap(path, newPath));
        var w := SetFolders(st.store, ups);
        if w.1.Err? then Outcome(State(w.0, st.empty), Err(w.1.error))
        else Outcome(State(w.0, set f | f in st.empty :: Remap(f, path, newPath)), Ok(newPath))
  }

  /**
   * `delete_folder(path)`: check the folder exists and is not the root; move
   * every listed item at or under it to the parent, drop the empty folders at
   * or under it, and drop the parent from the empty set when an item moved.
   * Returns how many items moved.
   */
  function DeleteFolder(st: State, folders: seq<Folder>, entries: seq<Entry>, path: string)
    : (r: Outcome<nat>)
    ensures !HasPath(folders, path) || path == "" ==> r.state == st && r.result.Err?
    ensures r.result.Ok? ==> r.result.value == |AffectedRows(entries, path)|
    ensures r.state.store.Keys == st.store.Keys
    ensures r.result.Err? ==> r.state.empty == st.empty
  {
    if !HasPath(folders, path) then Outcome(st, Err("Folder " + path + " does not exist"))
    else if path == "" then Outcome(st, Err("Cannot delete root folder"))
    else
      var affected := AffectedRows(entries, path);
      var parentPath := ParentOf(path);
      var ups := Writes(entries, path, ParentMap(parentPath));
      var w := SetFolders(st.store, ups);
      if w.1.Err? then Outcome(State(w.0, st.empty), Err(w.1.error))
      else
        var kept := st.empty - (set f | f in st.empty && AtOrUnder(f, path));
        var empty := if |affected| > 0 && parentPath in kept then kept - {parentPath} else kept;
        Outcome(State(w.0, empty), Ok(|affected|))
  }

  // ---------------------------------------------------------------------------
  // Effect of rename and delete on a consistent store
  // ---------------------------------------------------------------------------

  /**
   * The listing comes from the store: `order` names every stored key once, and
   * every non-empty record's `id` is its own key.
   */
  ghost predicate ListsStore(store: Store, order: seq<string>) {
    Seqs.Distinct(order)
    && (forall k :: k in store <==> k in order)
    && (forall k :: k in store && !store[k].IsEmpty() ==> store[k].id == Some(k))
  }

  /** Every store record whose non-empty metadata names it carries its own key. */
  ghost predicate IdsAreKeys(store: Store) {
    forall k :: k in store && !store[k].IsEmpty() ==> store[k].id == Some(k)
  }

  /** The writes of rename and delete when the rows are the whole listing. */
  function ListingWrites(store: Store, order: seq<string>, path: string, h: string -> string): seq<(string, string)> {
    Writes(ListEntries(store, order, None), path, h)
  }

  /**
   * Each write derived from the listing aims at a listed key of an item at or
   * under `path` and carries `h` of that item's folder.
   */
  lemma {:induction false} WritesTarget(store: Store, order: seq<string>, path: string, h: string -> string, i: nat)
    requires path != "" && IdsAreKeys(store)
    requires i < |ListingWrites(store, order, path, h)|
    ensures var u := ListingWrites(store, order, path, h)[i];
      u.0 in order && u.0 in store && AtOrUnder(FolderOf(store[u.0]), path)
      && u.1 == h(FolderOf(store[u.0]))
    decreases |order|
  {
    WritesCons(store, order, path, h);
    var ups := ListingWrites(store, order, path, h);
    var k0 := order[0];
    var pre := if k0 in store && AtOrUnder(FolderOf(store[k0]), path) then [(k0, h(FolderOf(store[k0])))] else [];
    var tailUps := ListingWrites(store, order[1..], path, h);
    assert ups == pre + tailUps;
    if i >= |pre| {
      WritesTarget(store, order[1..], path, h, i - |pre|);
      assert ups[i] == tailUps[i - |pre|];
      var k := ups[i].0;
      var j :| 0 <= j < |order[1..]| && order[1..][j] == k;
      assert order[j + 1] == k;
    }
  }

  /** Over a listing without repeated keys, no key is written twice. */
  lemma {:induction false} WritesDistinct(store: Store, order: seq<string>, path: string, h: string -> string)
    requires path != "" && IdsAreKeys(store) && Seqs.Distinct(order)
    ensures var ups := ListingWrites(store, order, path, h);
      forall i, j :: 0 <= i < j < |ups| ==> ups[i].0 != ups[j].0
    decreases |order|
  {
    if |order| > 0 {
      DistinctTail(order);
      WritesDistinct(store, order[1..], path, h);
      WritesCons(store, order, path, h);
      var ups := ListingWrites(store, order, path, h);
      var tailUps := ListingWrites(store, order[1..], path, h);
      var k0 := order[0];
      var pre := if k0 in store && AtOrUnder(FolderOf(store[k0]), path) then [(k0, h(FolderOf(store[k0])))] else [];
      assert ups == pre + tailUps;
      TailWritesAvoidHead(store, order, path, h);
      PairwiseDistinctAppend(pre, tailUps, k0);
    }
  }

  /** No write of the tail of a repetition-free listing targets its head key. */
  lemma TailWritesAvoidHead(store: Store, order: seq<string>, path: string, h: string -> string)
    requires path != "" && IdsAreKeys(store) && Seqs.Distinct(order) && |order| > 0
    ensures var tailUps := ListingWrites(store, order[1..], path, h);
      forall j :: 0 <= j < |tailUps| ==> tailUps[j].0 != order[0]
  {
    var tailUps := ListingWrites(store, order[1..], path, h);
    forall j | 0 <= j < |tailUps| ensures tailUps[j].0 != order[0] {
      WritesTarget(store, order[1..], path, h, j);
      var k := tailUps[j].0;
      var m :| 0 <= m < |order[1..]| && order[1..][m] == k;
      assert order[m + 1] == k;
    }
  }

  lemma PairwiseDistinctAppend(pre: seq<(string, string)>, t: seq<(string, string)>, k0: string)
    requires |pre| <= 1 && (|pre| == 1 ==> pre[0].0 == k0)
    requires forall j :: 0 <= j < |t| ==> t[j].0 != k0
    requires forall i, j :: 0 <= i < j < |t| ==> t[i].0 != t[j].0
    ensures var u := pre + t; forall i, j :: 0 <= i < j < |u| ==> u[i].0 != u[j].0
  {
    var u := pre + t;
    forall i, j | 0 <= i < j < |u| ensures u[i].0 != u[j].0 {
      if i >= |pre| {
        assert u[i] == t[i - |pre|] && u[j] == t[j - |pre|];
      } else {
        assert u[j] == t[j - 1];
      }
    }
  }

  /** Every listed key of an item at or under `path` is written. */
  lemma {:induction false} WritesComplete(store: Store, order: seq<string>, path: string, h: string -> string, k: string)
    requires path != "" && IdsAreKeys(store)
    requires k in order && k in store && AtOrUnder(FolderOf(store[k]), path)
    ensures var ups := ListingWrites(store, order, path, h);
      exists i :: 0 <= i < |ups| && ups[i].0 == k
    decreases |order|
  {
    WritesCons(store, order, path, h);
    var ups := ListingWrites(store, order, path, h);
    var k0 := order[0];
    var pre := if k0 in store && AtOrUnder(FolderOf(store[k0]), path) then [(k0, h(FolderOf(store[k0])))] else [];
    var tailUps := ListingWrites(store, order[1..], path, h);
    assert ups == pre + tailUps;
    if k == k0 {
      assert ups[0].0 == k;
    } else {
      var j :| 0 <= j < |order| && order[j] == k;
      assert order[1..][j - 1] == k;
      WritesComplete(store, order[1..], path, h, k);
      var i :| 0 <= i < |tailUps| && tailUps[i].0 == k;
      assert ups[|pre| + i] == tailUps[i];
    }
  }

  lemma DistinctTail(order: seq<string>)
    requires |order| > 0 && Seqs.Distinct(order)
    ensures Seqs.Distinct(order[1..])
    ensures forall k :: k in order[1..] ==> k != order[0] && k in order
  {
    var tail := order[1..];
    forall i, j | 0 <= i < j < |tail| ensures tail[i] != tail[j] {
      assert tail[i] == order[i + 1] && tail[j] == order[j + 1];
    }
    forall k | k in tail ensures k != order[0] && k in order {
      var j :| 0 <= j < |tail| && tail[j] == k;
      assert order[j + 1] == k;
    }
  }

  /** The first listed key contributes one write exactly when its item is affected. */
  lemma WritesCons(store: Store, order: seq<string>, path: string, h: string -> string)
    requires path != "" && |order| > 0
    requires forall k :: k in store && !store[k].IsEmpty() ==> store[k].id == Some(k)
    ensures var k0 := order[0];
      ListingWrites(store, order, path, h)
      == (if k0 in store && AtOrUnder(FolderOf(store[k0]), path) then [(k0, h(FolderOf(store[k0])))] else [])
         + ListingWrites(store, order[1..], path, h)
  {
    var k0 := order[0];
    var rest := ListEntries(store, order[1..], None);
    if Listed(store, k0, None) {
      var e := ToEntry(store[k0]);
      assert ListEntries(store, order, None) == [e] + rest;
      assert ([e] + rest)[1..] == rest;
    } else if k0 in store {
      assert FolderOf(store[k0]) == "";
      assert !StartsWith("", path + "/");
    }
  }

  /**
   * On a listing of the whole store, the per-item loop succeeds and moves
   * exactly the items at or under `path`, each to `h` of its old folder.
   */
  lemma WritesLand(store: Store, order: seq<string>, path: string, h: string -> string)
    requires path != "" && ListsStore(store, order)
    ensures var w := SetFolders(store, ListingWrites(store, order, path, h));
      w.1.Ok?
      && forall k :: k in store ==>
           w.0[k] == if AtOrUnder(FolderOf(store[k]), path)
                     then store[k].(folder := Some(h(FolderOf(store[k]))))
                     else store[k]
  {
    var ups := ListingWrites(store, order, path, h);
    var w := SetFolders(store, ups);
    forall i | 0 <= i < |ups|
      ensures ups[i].0 in store && AtOrUnder(FolderOf(store[ups[i].0]), path)
      ensures ups[i].1 == h(FolderOf(store[ups[i].0]))
    {
      WritesTarget(store, order, path, h, i);
    }
    WritesDistinct(store, order, path, h);
    SetFoldersLands(store, ups);
    forall k | k in store
      ensures w.0[k] == if AtOrUnder(FolderOf(store[k]), path)
                        then store[k].(folder := Some(h(FolderOf(store[k]))))
                        else store[k]
    {
      if AtOrUnder(FolderOf(store[k]), path) {
        WritesComplete(store, order, path, h, k);
        var i :| 0 <= i < |ups| && ups[i].0 == k;
        assert w.0[ups[i].0] == store[ups[i].0].(folder := Some(ups[i].1));
      } else {
        assert forall i :: 0 <= i < |ups| ==> ups[i].0 != k;
      }
    }
  }

  /**
   * On a consistent store, a rename that passes its checks returns the new
   * path, rewrites the folder of exactly the items at or under the old path,
   * and remaps the empty folders in the same way.
   */
  lemma RenameEffect(st: State, folders: seq<Folder>, order: seq<string>, path: string, newName: string)
    requires ListsStore(st.store, order)
    requires HasPath(folders, path) && path != "" && !HasPath(folders, RenameTarget(path, newName))
    ensures var newPath := RenameTarget(path, newName);
      var r := RenameFolder(st, folders, ListEntries(st.store, order, None), path, newName);
      r.result == Ok(newPath)
      && r.state.empty == (set f | f in st.empty :: Remap(f, path, newPath))
      && forall k :: k in st.store ==>
           r.state.store[k] == if AtOrUnder(FolderOf(st.store[k]), path)
                               then st.store[k].(folder := Some(Remap(FolderOf(st.store[k]), path, newPath)))
                               else st.store[k]
  {
    WritesLand(st.store, order, path, RenameMap(path, RenameTarget(path, newName)));
  }

  /** The parent of a non-root folder is not at or under it. */
  lemma ParentNotUnder(path: string)
    requires path != ""
    ensures !AtOrUnder(ParentOf(path), path)
  {
    var parts := Split(path, "/");
    var n := |parts|;
    if n > 1 {
      JoinSnoc(parts[..n - 1], parts[n - 1], "/");
      assert parts[..n - 1] + [parts[n - 1]] == parts;
    }
  }

  lemma {:induction false} JoinSnoc(a: seq<string>, x: string, sep: string)
    requires |a| >= 1
    ensures Join(a + [x], sep) == Join(a, sep) + sep + x
    decreases |a|
  {
    if |a| == 1 {
      assert (a + [x])[1..] == [x];
    } else {
      JoinSnoc(a[1..], x, sep);
      assert (a + [x])[1..] == a[1..] + [x];
    }
  }

  /**
   * On a consistent store, a delete that passes its checks moves exactly the
   * items at or under the folder to its parent, returns how many moved (none
   * exactly when no stored item is there), and drops the empty folders at or
   * under it, and the parent too when something moved.
   */
  lemma DeleteEffect(st: State, folders: seq<Folder>, order: seq<string>, path: string)
    requires ListsStore(st.store, order)
    requires HasPath(folders, path) && path != ""
    ensures DeleteFolder(st, folders, ListEntries(st.store, order, None), path).result.Ok?
    ensures DeleteFolder(st, folders, ListEntries(st.store, order, None), path).result.value > 0
        <==> exists k :: k in st.store && AtOrUnder(FolderOf(st.store[k]), path)
    ensures var moved := exists k :: k in st.store && AtOrUnder(FolderOf(st.store[k]), path);
      DeleteFolder(st, folders, ListEntries(st.store, order, None), path).state.empty
        == (set f | f in st.empty && !AtOrUnder(f, path) && !(moved && f == ParentOf(path)))
    ensures var s := DeleteFolder(st, folders, ListEntries(st.store, order, None), path).state.store;
      forall k :: k in st.store ==>
        s[k] == if AtOrUnder(FolderOf(st.store[k]), path)
                then st.store[k].(folder := Some(ParentOf(path)))
                else st.store[k]
  {
    var h := ParentMap(ParentOf(path));
    WritesLand(st.store, order, path, h);
    DeleteCount(st.store, order, path, h);
    var n := |AffectedRows(ListEntries(st.store, order, None), path)|;
    DroppedEmpties(st.empty, path, ParentOf(path), n > 0);
  }

  /** The empty-folder update of `delete_folder` as one comprehension. */
  lemma DroppedEmpties(empty: set<string>, path: string, parentPath: string, moved: bool)
    ensures var kept := empty - (set f | f in empty && AtOrUnder(f, path));
      (if moved && parentPath in kept then kept - {parentPath} else kept)
      == (set f | f in empty && !AtOrUnder(f, path) && !(moved && f == parentPath))
  {
  }

  /** Some write happens exactly when some stored item is at or under `path`. */
  lemma DeleteCount(store: Store, order: seq<string>, path: string, h: string -> string)
    requires path != "" && ListsStore(store, order)
    ensures |AffectedRows(ListEntries(store, order, None), path)| > 0
        <==> exists k :: k in store && AtOrUnder(FolderOf(store[k]), path)
  {
    var ups := ListingWrites(store, order, path, h);
    if exists k :: k in store && AtOrUnder(FolderOf(store[k]), path) {
      var k :| k in store && AtOrUnder(FolderOf(store[k]), path);
      WritesComplete(store, order, path, h, k);
    }
    if |ups| > 0 {
      WritesTarget(store, order, path, h, 0);
    }
  }

  /**
   * After a successful delete on a consistent store, no item and no empty
   * folder remains at or under the deleted folder.
   */
  lemma DeleteClearsFolder(st: State, folders: seq<Folder>, order: seq<string>, path: string)
    requires ListsStore(st.store, order)
    requires HasPath(folders, path) && path != ""
    ensures var r := DeleteFolder(st, folders, ListEntries(st.store, order, None), path);
      (forall k :: k in r.state.store ==> !AtOrUnder(FolderOf(r.state.store[k]), path))
      && (forall f :: f in r.state.empty ==> !AtOrUnder(f, path))
  {
    DeleteEffect(st, folders, order, path);
    ParentNotUnder(path);
  }
}
