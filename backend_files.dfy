/**
 * The 9p SABFS backend callbacks that open, create and remove files
 * (hw/9pfs/9p-sabfs-backend.c). Each forwards one or two requests to the
 * JavaScript SABFS object. A request is an FsCall; `js` answers it, and
 * every callback returns its result together with the requests it made,
 * in order.
 */
module BackendFiles {
  import opened CTypes
  import opened CStrings
  import opened BackendPaths

  /** O_CREAT and O_TRUNC as the backend writes them. */
  const O_CREAT: bv32 := 0x40
  const O_TRUNC: bv32 := 0x200
  /** The unlinkat flag that asks for a directory to be removed. */
  const AT_REMOVEDIR: bv32 := 0x200

  /** A request to the JavaScript SABFS object. */
  datatype FsCall =
    | Open(path: string, flags: bv32, mode: int)
    | Close(fd: int)
    | Mkdir(path: string, mode: int)
    | Rmdir(path: string)
    | Unlink(path: string)
    | Symlink(target: string, linkPath: string)
    | Link(oldPath: string, newPath: string)
    | Rename(oldPath: string, newPath: string)

  /** SabfsFileState: the SABFS descriptor of an open fid and its path, cut to PATH_MAX - 1. */
  datatype FileState = FileState(fd: int, path: string)

  /**
   * sabfs_open: on success the fid gets a state holding the new descriptor
   * and the path; a negative descriptor fails with ENOENT and no state.
   */
  function OpenFile(path: string, flags: bv32, js: FsCall -> int): (res: (int, Option<Errno>, Option<FileState>, seq<FsCall>))
    ensures res.3 == [Open(path, flags, 0)]
    ensures var fd := js(Open(path, flags, 0));
      && (fd < 0 ==> res.0 == -1 && res.1 == Some(ENOENT) && res.2 == None)
      && (fd >= 0 ==> res.0 == 0 && res.1 == None && res.2 == Some(FileState(fd, Truncated(path, PathMax))))
    ensures res.2.Some? ==> res.2.value.fd >= 0 && |res.2.value.path| < PathMax
  {
    var call := Open(path, flags, 0);
    var fd := js(call);
    if fd < 0 then (-1, Some(ENOENT), None, [call])
    else (0, None, Some(FileState(fd, Truncated(path, PathMax))), [call])
  }

  /**
   * sabfs_open2: like sabfs_open on the joined path "dir/name", with
   * O_CREAT added to the flags and the credentials' mode.
   */
  function Open2(dir: string, name: string, flags: bv32, mode: int, js: FsCall -> int)
    : (res: (int, Option<Errno>, Option<FileState>, seq<FsCall>))
    ensures var call := Open(ChildPath(dir, name), flags | O_CREAT, mode);
      && res.3 == [call]
      && (js(call) < 0 ==> res.0 == -1 && res.1 == Some(ENOENT) && res.2 == None)
      && (js(call) >= 0 ==> res.0 == 0 && res.1 == None && res.2 == Some(FileState(js(call), ChildPath(dir, name))))
    ensures res.3[0].flags & O_CREAT == O_CREAT
  {
    var path := ChildPath(dir, name);
    var call := Open(path, flags | O_CREAT, mode);
    var fd := js(call);
    if fd < 0 then (-1, Some(ENOENT), None, [call])
    else (0, None, Some(FileState(fd, Truncated(path, PathMax))), [call])
  }

  /**
   * sabfs_mknod: device nodes are not supported, so a regular file is
   * created and truncated at "dir/name" and closed again; failure to
   * create it is EPERM.
   */
  function Mknod(dir: string, name: string, mode: int, js: FsCall -> int): (res: (int, Option<Errno>, seq<FsCall>))
    ensures |res.2| >= 1 && res.2[0] == Open(ChildPath(dir, name), O_CREAT | O_TRUNC, mode)
    ensures var fd := js(res.2[0]);
      && (fd < 0 ==> res.0 == -1 && res.1 == Some(EPERM) && |res.2| == 1)
      && (fd >= 0 ==> res.0 == 0 && res.1 == None && res.2 == [res.2[0], Close(fd)])
  {
    var call := Open(ChildPath(dir, name), O_CREAT | O_TRUNC, mode);
    var fd := js(call);
    if fd < 0 then (-1, Some(EPERM), [call]) else (0, None, [call, Close(fd)])
  }

  /** sabfs_close: the fid's descriptor is closed if it has a state; the result is always 0. */
  function CloseFile(state: Option<FileState>): (res: (int, seq<FsCall>))
    ensures res.0 == 0
    ensures state.None? <==> res.1 == []
    ensures state.Some? ==> res.1 == [Close(state.value.fd)]
  {
    if state.None? then (0, []) else (0, [Close(state.value.fd)])
  }

  /** sabfs_mkdir: one mkdir of "dir/name"; its answer is the result. */
  function MakeDir(dir: string, name: string, mode: int, js: FsCall -> int): (res: (int, seq<FsCall>))
    ensures res.1 == [Mkdir(ChildPath(dir, name), mode)] && res.0 == js(res.1[0])
  {
    var call := Mkdir(ChildPath(dir, name), mode);
    (js(call), [call])
  }

  /** sabfs_symlink: a link "dir/name" pointing at `target`. */
  function MakeSymlink(target: string, dir: string, name: string, js: FsCall -> int): (res: (int, seq<FsCall>))
    ensures res.1 == [Symlink(target, ChildPath(dir, name))] && res.0 == js(res.1[0])
  {
    var call := Symlink(target, ChildPath(dir, name));
    (js(call), [call])
  }

  /** sabfs_link: a hard link "dir/name" to `oldPath`. */
  function MakeLink(oldPath: string, dir: string, name: string, js: FsCall -> int): (res: (int, seq<FsCall>))
    ensures res.1 == [Link(oldPath, ChildPath(dir, name))] && res.0 == js(res.1[0])
  {
    var call := Link(oldPath, ChildPath(dir, name));
    (js(call), [call])
  }

  /** sabfs_renameat: "olddir/oldName" renamed to "newdir/newName". */
  function Renameat(olddir: string, oldName: string, newdir: string, newName: string, js: FsCall -> int)
    : (res: (int, seq<FsCall>))
    ensures res.1 == [Rename(ChildPath(olddir, oldName), ChildPath(newdir, newName))] && res.0 == js(res.1[0])
  {
    var call := Rename(ChildPath(olddir, oldName), ChildPath(newdir, newName));
    (js(call), [call])
  }

  /**
   * sabfs_remove: unlink first; only when that fails, rmdir, whose answer
   * is then the result. It succeeds exactly when one of the two does.
   */
  function Remove(path: string, js: FsCall -> int): (res: (int, seq<FsCall>))
    ensures |res.1| >= 1 && res.1[0] == Unlink(path)
    ensures js(Unlink(path)) == 0 <==> res.1 == [Unlink(path)]
    ensures js(Unlink(path)) != 0 ==> res.1 == [Unlink(path), Rmdir(path)] && res.0 == js(Rmdir(path))
    ensures res.0 == 0 <==> js(Unlink(path)) == 0 || js(Rmdir(path)) == 0
  {
    if js(Unlink(path)) == 0 then (0, [Unlink(path)])
    else (js(Rmdir(path)), [Unlink(path), Rmdir(path)])
  }

  /**
   * sabfs_unlinkat: exactly one request on "dir/name": rmdir when
   * AT_REMOVEDIR is among the flags, unlink otherwise.
   */
  function Unlinkat(dir: string, name: string, flags: bv32, js: FsCall -> int): (res: (int, seq<FsCall>))
    ensures |res.1| == 1 && res.0 == js(res.1[0])
    ensures res.1[0] == Rmdir(ChildPath(dir, name)) <==> flags & AT_REMOVEDIR != 0
    ensures res.1[0] == Unlink(ChildPath(dir, name)) <==> flags & AT_REMOVEDIR == 0
  {
    var path := ChildPath(dir, name);
    if flags & AT_REMOVEDIR != 0 then (js(Rmdir(path)), [Rmdir(path)])
    else (js(Unlink(path)), [Unlink(path)])
  }

  /**
   * unlinkat without AT_REMOVEDIR is the first step of remove on the joined
   * path, and the two agree whenever that unlink succeeds.
   */
  lemma UnlinkatIsRemoveFirstStep(dir: string, name: string, js: FsCall -> int)
    requires js(Unlink(ChildPath(dir, name))) == 0
    ensures Unlinkat(dir, name, 0, js) == Remove(ChildPath(dir, name), js)
  {
  }

  /**
   * sabfs_readlink: at most `bufsz` bytes of the UTF-8 encoding of the link
   * text, not NUL-terminated, and their count. `readlink(path)` is the
   * encoded text the JavaScript side reports for `path`; none, or an empty
   * one, fails with EINVAL.
   */
  function Readlink(path: string, bufsz: nat, readlink: string -> Option<seq<byte>>): (res: (int, Option<Errno>, seq<byte>))
    ensures var target := readlink(path);
      target.None? || target.value == [] ==> res.0 == -1 && res.1 == Some(EINVAL) && res.2 == []
    ensures var target := readlink(path);
      target.Some? && target.value != [] ==>
        && res.0 == |res.2| == Min(|target.value|, bufsz) && res.1 == None
        && res.2 == target.value[..|res.2|]
  {
    var target := readlink(path);
    if target.None? || target.value == [] then (-1, Some(EINVAL), [])
    else
      var len := if |target.value| < bufsz then |target.value| else bufsz;
      (len, None, target.value[..len])
  }

  /**
   * sabfs_init: the backend starts only when the JavaScript SABFS object
   * reports itself available; otherwise -1 with an error.
   */
  function Init(jsAvailable: bool): (r: int)
    ensures r == 0 <==> jsAvailable
    ensures r != 0 ==> r == -1
  {
    if jsAvailable then 0 else -1
  }

  /** sabfs_fsync: SABFS lives in memory, so there is nothing to flush and it always succeeds. */
  function Fsync(state: Option<FileState>, datasync: bool): (r: int)
    ensures r == 0
  {
    0
  }
}
