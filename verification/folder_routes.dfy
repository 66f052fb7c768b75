/**
 * The folder handlers of `routes/file/folder_management_routes.py`: input
 * cleaning, the split of a folder path into its parent and last segment, the
 * message flashed and the folder the redirect shows. The folder functions
 * they call are those of `services/utils/cache.py`, modelled in `FolderOps`.
 */
module FolderRoutes {
  import opened Wrappers
  import opened PyText
  import opened Items
  import opened Folders
  import opened FolderOps

  /**
   * Where a handler redirects: the file view with no parameters at all, or the
   * file view with the pagination and filters preserved and, optionally, a
   * `folder` parameter.
   */
  datatype Target = Bare | Listing(folder: Option<string>)

  /** What a handler leaves behind: the new state, the flash message and the redirect. */
  datatype Reply = Reply(state: State, flash: string, target: Target)

  /**
   * `path.split('/')[-1]` and `'/'.join(path.split('/')[:-1])` when the path
   * holds a `/`, else the path itself and `''`.
   */
  function SplitFolderPath(path: string): (r: (string, string))
    ensures !Contains(r.1, "/")
  {
    if Contains(path, "/") then (ParentOf(path), SplitLast(path, "/")) else ("", path)
  }

  /** For a path with a `/`, parent, `/` and last segment put the path back together. */
  lemma SplitFolderPathReassembles(path: string)
    requires Contains(path, "/")
    ensures SplitFolderPath(path).0 + "/" + SplitFolderPath(path).1 == path
  {
    var parts := Split(path, "/");
    var n := |parts|;
    JoinSnoc(parts[..n - 1], parts[n - 1], "/");
    assert parts[..n - 1] + [parts[n - 1]] == parts;
  }

  /** Without a `/`, the parent is the root and the name is the whole path. */
  lemma SplitFolderPathFlat(path: string)
    requires !Contains(path, "/")
    ensures SplitFolderPath(path) == ("", path)
  {
  }

  /**
   * The handlers' parent is the parent `rename_folder` and `delete_folder`
   * compute, with or without a `/` in the path.
   */
  lemma SplitFolderPathParent(path: string)
    ensures SplitFolderPath(path).0 == ParentOf(path)
  {
    if !Contains(path, "/") {
      var parts := Split(path, "/");
      assert |parts| == 1;
      assert parts[..0] == [];
    }
  }

  /**
   * The split inverts building a child path: `parent/name` for a `/`-free name
   * splits back into `parent` and `name`.
   */
  lemma SplitFolderPathOfChild(parent: string, name: string)
    requires !Contains(name, "/")
    ensures SplitFolderPath(parent + "/" + name) == (parent, name)
  {
    var ps := Split(parent, "/");
    var path := parent + "/" + name;
    JoinSnoc(ps, name, "/");
    assert Join(ps + [name], "/") == path;
    forall k | 0 <= k < |ps + [name]|
      ensures !Contains((ps + [name])[k], "/")
    {
      if k < |ps| {
        assert (ps + [name])[k] == ps[k];
      }
    }
    SplitJoin(ps + [name]);
    assert Split(path, "/") == ps + [name];
    assert (ps + [name])[..|ps|] == ps;
    assert OccursAt(path, "/", |parent|) by {
      assert path[|parent|..|parent| + 1] == "/";
    }
  }

  /**
   * `create_folder_route`: an empty name (after stripping) only flashes an
   * error; otherwise the folder is created and the view returns to the parent
   * folder when there is one. An exception is flashed and the plain view shown.
   */
  function CreateRoute(st: State, folders: seq<Folder>, nameField: string, parentField: string): (r: Reply)
    ensures AllSpace(nameField) ==> r == Reply(st, "Folder name cannot be empty", Listing(None))
    ensures !AllSpace(nameField)
            ==> r.state == CreateFolder(st, folders, Strip(nameField), Strip(parentField)).state
    ensures r.state.store == st.store
    ensures r.target.Listing? && (r.target.folder.Some? ==> r.target.folder.value == Strip(parentField) != "")
  {
    var name := Strip(nameField);
    var parent := Strip(parentField);
    if name == "" then Reply(st, "Folder name cannot be empty", Listing(None))
    else
      var o := CreateFolder(st, folders, name, parent);
      match o.result
      case Err(e) => Reply(o.state, "Error creating folder: " + e, Listing(None))
      case Ok(_) =>
        Reply(o.state, "Folder '" + name + "' created successfully!",
              Listing(if parent != "" then Some(parent) else None))
  }

  /**
   * `rename_folder_route`: both fields are required; the flash names the old
   * last segment, and the view returns to the parent folder when there is one.
   */
  function RenameRoute(st: State, folders: seq<Folder>, entries: seq<Entry>, pathField: string, nameField: string)
    : (r: Reply)
    ensures AllSpace(pathField) || AllSpace(nameField)
            ==> r == Reply(st, "Folder path and new name are required", Listing(None))
    ensures !AllSpace(pathField) && !AllSpace(nameField)
            ==> r.state == RenameFolder(st, folders, entries, Strip(pathField), Strip(nameField)).state
    ensures r.target.Listing?
    ensures r.target.folder.Some? ==> r.target.folder.value == ParentOf(Strip(pathField)) != ""
  {
    var path := Strip(pathField);
    var newName := Strip(nameField);
    if path == "" || newName == "" then Reply(st, "Folder path and new name are required", Listing(None))
    else
      var (parent, oldName) := SplitFolderPath(path);
      SplitFolderPathParent(path);
      var o := RenameFolder(st, folders, entries, path, newName);
      match o.result
      case Err(e) => Reply(o.state, "Error renaming folder: " + e, Listing(None))
      case Ok(_) =>
        Reply(o.state, "Folder '" + oldName + "' renamed to '" + newName + "' successfully!",
              Listing(if parent != "" then Some(parent) else None))
  }

  /**
   * `delete_folder_route`: an empty path is refused before anything is
   * deleted; otherwise the view always goes to the parent folder (`''` for a
   * top-level one) and the flash reports how many items moved.
   */
  function DeleteRoute(st: State, folders: seq<Folder>, entries: seq<Entry>, pathField: string): (r: Reply)
    ensures AllSpace(pathField) ==> r == Reply(st, "No folder path provided", Bare)
    ensures !AllSpace(pathField)
            ==> r.state == DeleteFolder(st, folders, entries, Strip(pathField)).state
    ensures !AllSpace(pathField) && DeleteFolder(st, folders, entries, Strip(pathField)).result.Ok?
            ==> r.target == Listing(Some(ParentOf(Strip(pathField))))
  {
    var path := Strip(pathField);
    if path == "" then Reply(st, "No folder path provided", Bare)
    else
      var parent := SplitFolderPath(path).0;
      SplitFolderPathParent(path);
      var o := DeleteFolder(st, folders, entries, path);
      match o.result
      case Err(e) => Reply(o.state, "Error deleting folder: " + e, Listing(None))
      case Ok(n) =>
        var name := SplitFolderPath(path).1;
        Reply(o.state, "Folder '" + name + "' deleted. " + NatToString(n) + " items moved to parent folder.",
              Listing(Some(parent)))
  }
}
