/**
 * `delete_file_from_storage(file_id)` of `services/storage_service.py`, with
 * the bucket as the set of blob names it holds. `failing` names the blobs on
 * which the existence check or the deletion raises (the loop logs those and
 * goes on).
 */
module Storage {
  import opened Wrappers

  /** The nine blob names an item's files may have, in the order they are tried. */
  function Candidates(id: string): (names: seq<string>)
    ensures |names| == 9
  {
    [ "cache/metadata_" + id + ".pkl",
      "cache/metadata_db_" + id + ".pkl",
      "cache/metadata_doc_" + id + ".pkl",
      "cache/notion_data_" + id + ".pkl",
      "cache/notion_database_" + id + ".pkl",
      "cache/document_data_" + id + ".pkl",
      "cache/vector_index_" + id + ".pkl",
      "cache/vector_database_" + id + ".pkl",
      "cache/vector_document_" + id + ".pkl" ]
  }

  /** The names in `names` that exist and can be deleted. */
  function Deletable(bucket: set<string>, failing: set<string>, names: seq<string>): set<string> {
    set n | n in names && n in bucket && n !in failing
  }

  /**
   * The candidate loop: delete every name that exists, in order; report
   * whether anything was deleted.
   */
  function DeleteEach(bucket: set<string>, failing: set<string>, names: seq<string>): (r: (set<string>, bool))
    ensures r.0 == bucket - Deletable(bucket, failing, names)
    ensures r.1 <==> Deletable(bucket, failing, names) != {}
    decreases |names|
  {
    if |names| == 0 then (bucket, false)
    else
      var n := names[0];
      var gone := n in bucket && n !in failing;
      var rest := DeleteEach(if gone then bucket - {n} else bucket, failing, names[1..]);
      assert forall m :: m in names <==> m == n || m in names[1..];
      assert Deletable(bucket, failing, names)
          == (if gone then {n} else {}) + Deletable(if gone then bucket - {n} else bucket, failing, names[1..]);
      (rest.0, gone || rest.1)
  }

  /**
   * `delete_file_from_storage(file_id)`: every candidate that exists is
   * deleted; only when none was, the blob named `file_id` itself is tried;
   * `ValueError` is raised when nothing was deleted.
   */
  function DeleteFile(bucket: set<string>, failing: set<string>, id: string): (r: (set<string>, Result<bool>))
    ensures r.0 <= bucket
    ensures r.1.Ok? ==> r.1.value
    ensures Deletable(bucket, failing, Candidates(id)) != {}
            ==> r.0 == bucket - Deletable(bucket, failing, Candidates(id)) && r.1.Ok?
    ensures Deletable(bucket, failing, Candidates(id)) == {}
            ==> (r.1.Ok? <==> id in bucket && id !in failing)
    ensures Deletable(bucket, failing, Candidates(id)) == {} && r.1.Ok? ==> r.0 == bucket - {id}
    ensures r.1.Err? ==> r.0 == bucket && r.1.error == "No files found to delete for ID: " + id
  {
    var (b, deleted) := DeleteEach(bucket, failing, Candidates(id));
    if deleted then (b, Ok(true))
    else if id in b && id !in failing then (b - {id}, Ok(true))
    else (b, Err("No files found to delete for ID: " + id))
  }

  /** The error is raised exactly when the bucket is left as it was. */
  lemma DeleteFileErrIffUnchanged(bucket: set<string>, failing: set<string>, id: string)
    ensures DeleteFile(bucket, failing, id).1.Err? <==> DeleteFile(bucket, failing, id).0 == bucket
  {
    var d := Deletable(bucket, failing, Candidates(id));
    var r := DeleteFile(bucket, failing, id);
    if d != {} {
      var n :| n in d;
      assert n !in r.0;
    } else if r.1.Ok? {
      assert id !in r.0;
    }
  }

  /**
   * Nothing outside the candidates and the fallback name is removed, and the
   * fallback is removed only when no candidate was.
   */
  lemma DeleteFileScope(bucket: set<string>, failing: set<string>, id: string, n: string)
    requires n in bucket && n !in DeleteFile(bucket, failing, id).0
    ensures n in Candidates(id) || (n == id && Deletable(bucket, failing, Candidates(id)) == {})
    ensures n !in failing
  {
  }
}
