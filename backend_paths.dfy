/**
 * Path resolution in the 9p SABFS backend (hw/9pfs/9p-sabfs-backend.c):
 * how a directory path and a name become a new path, both for the
 * fid-walk callback sabfs_name_to_path and for the fixed PATH_MAX buffers
 * the create, remove and rename callbacks format with "%s/%s".
 */
module BackendPaths {
  import opened CTypes
  import opened CStrings

  /** PATH_MAX under Emscripten: the size of every path buffer in the backend. */
  const PathMax := 4096

  /** A V9fsPath: the path text and `size`, its length counting the terminating NUL. */
  datatype V9fsPath = V9fsPath(data: string, size: nat)

  /**
   * p is what ".." means for directory d: the part of d before its last
   * '/', or "/" when d has no '/' after its first character.
   */
  ghost predicate IsParent(d: string, p: string)
  {
    || (p == "/" && forall j :: 0 < j < |d| ==> d[j] != '/')
    || (0 < |p| < |d| && d[..|p|] == p && d[|p|] == '/' && forall j :: |p| < j < |d| ==> d[j] != '/')
  }

  /**
   * sabfs_name_to_path. Without a directory the name is the path. "." is
   * the directory itself, ".." its parent, and any other name is appended
   * after a '/'.
   */
  function NameToPath(dir: Option<string>, name: string): (t: V9fsPath)
    ensures t.size == |t.data| + 1
    ensures dir.None? ==> t.data == name
    ensures dir.Some? && name == "." ==> t.data == dir.value
    ensures dir.Some? && name == ".." ==> IsParent(dir.value, t.data)
    ensures dir.Some? && name != "." && name != ".." ==>
      HasPrefix(t.data, dir.value + "/") && t.data[|dir.value| + 1..] == name
  {
    var data :=
      if dir.None? then name
      else if name == "." then dir.value
      else if name == ".." then
        var slash := LastIndexOf(dir.value, '/');
        if slash > 0 then dir.value[..slash] else "/"
      else dir.value + "/" + name;
    V9fsPath(data, |data| + 1)
  }

  /**
   * Walking into a child and then to ".." comes back to the directory, for
   * every non-empty directory path and every plain name: one without '/'
   * that is neither "." nor "..".
   */
  lemma {:induction false} ParentOfChild(dir: string, name: string)
    requires dir != ""
    requires name != "." && name != ".."
    requires forall j :: 0 <= j < |name| ==> name[j] != '/'
    ensures NameToPath(Some(NameToPath(Some(dir), name).data), "..").data == dir
  {
    var child := dir + "/" + name;
    assert NameToPath(Some(dir), name).data == child;
    var slash := LastIndexOf(child, '/');
    assert child[|dir|] == '/';
    forall j | |dir| < j < |child|
      ensures child[j] != '/'
    {
      assert child[j] == name[j - |dir| - 1];
    }
    assert slash == |dir|;
    assert child[..slash] == dir;
  }

  /**
   * `snprintf(path, PATH_MAX, "%s/%s", dir, name)`: the joined path, cut
   * to PATH_MAX - 1 characters. It is the same path as sabfs_name_to_path
   * gives whenever it fits.
   */
  function ChildPath(dir: string, name: string): (p: string)
    ensures |p| < PathMax
    ensures HasPrefix(dir + "/" + name, p)
    ensures |dir| + 1 + |name| < PathMax && name != "." && name != ".." ==>
      p == NameToPath(Some(dir), name).data
  {
    Truncated(dir + "/" + name, PathMax)
  }
}
