/**
 * The directory cursor of the 9p SABFS backend (hw/9pfs/9p-sabfs-backend.c):
 * SabfsDirState, made by opendir and driven by readdir, seekdir, telldir
 * and rewinddir. A fid without a state is `null`. The JavaScript listing
 * is an oracle: `entry(i)` is what it reports for entry i.
 */
module BackendDir {
  import opened CTypes
  import opened CStrings
  import opened BackendPaths

  /** sizeof(struct dirent.d_name): names are cut to 255 bytes. */
  const NameBufLen := 256

  /**
   * What sabfs_be_js_readdir_entry reports: the entry's name as the bytes
   * of its UTF-8 encoding, the inode word and the type word.
   */
  datatype JsEntry = JsEntry(name: seq<byte>, ino: int, dtype: int)

  /** The struct dirent fields readdir fills in; d_type is an unsigned char. */
  datatype Dirent = Dirent(name: seq<byte>, ino: int, dtype: int)

  /**
   * The entry readdir returns for a listing entry: the first
   * min(length, 255) bytes of the encoded name, which may end part-way
   * through a multi-byte character.
   */
  function DirentOf(e: JsEntry): (d: Dirent)
    ensures |d.name| == Min(|e.name|, NameBufLen - 1) && d.name == e.name[..|d.name|]
    ensures 0 <= d.dtype < 256 && (0 <= e.dtype < 256 ==> d.dtype == e.dtype)
    ensures d.ino == e.ino
  {
    var name := if |e.name| < NameBufLen then e.name else e.name[..NameBufLen - 1];
    Dirent(name, e.ino, e.dtype % 256)
  }

  class DirState {
    /** The directory's path, cut to PATH_MAX - 1 characters. */
    var path: string
    /** The number of entries in the listing; -1 after a failed refresh. */
    var count: int
    /** The index of the next entry readdir returns. */
    var pos: int

    ghost predicate Valid()
      reads this
    {
      |path| < PathMax && IsI32(count) && IsI32(pos)
    }

    constructor (path: string, count: int)
      requires IsI32(count)
      ensures Valid()
      ensures this.path == Truncated(path, PathMax) && this.count == count && pos == 0
    {
      this.path := Truncated(path, PathMax);
      this.count := count;
      pos := 0;
    }
  }

  /**
   * sabfs_opendir: a negative count from the listing fails with ENOENT;
   * otherwise a new state at position 0 with that many entries.
   */
  method Opendir(path: string, jsCount: int) returns (r: int, errno: Option<Errno>, state: DirState?)
    requires IsI32(jsCount)
    ensures jsCount < 0 ==> r == -1 && errno == Some(ENOENT) && state == null
    ensures jsCount >= 0 ==> r == 0 && errno == None && state != null && fresh(state) && state.Valid()
    ensures state != null ==> state.path == Truncated(path, PathMax) && state.count == jsCount && state.pos == 0
  {
    if jsCount < 0 {
      return -1, Some(ENOENT), null;
    }
    state := new DirState(path, jsCount);
    r, errno := 0, None;
  }

  /** sabfs_telldir: the cursor position, 0 without a state. */
  function Telldir(state: DirState?): (p: int)
    reads state
    ensures state == null ==> p == 0
    ensures state != null ==> p == state.pos
  {
    if state == null then 0 else state.pos
  }

  /**
   * sabfs_readdir: no entry without a state, at or past the end of the
   * listing, or when the listing has no entry at the position. Otherwise
   * the entry at the position, and the cursor moves on by exactly one.
   */
  method Readdir(state: DirState?, entry: int -> Option<JsEntry>) returns (d: Option<Dirent>)
    requires state != null ==> state.Valid()
    modifies state
    ensures state != null ==> state.Valid() && state.path == old(state.path) && state.count == old(state.count)
    ensures state == null ==> d == None
    ensures state != null ==>
      (d.Some? <==> old(state.pos) < state.count && entry(old(state.pos)).Some?)
    ensures state != null && d.Some? ==> d.value == DirentOf(entry(old(state.pos)).value)
    ensures state != null ==> Telldir(state) == old(Telldir(state)) + (if d.Some? then 1 else 0)
  {
    if state == null || state.pos >= state.count {
      return None;
    }
    var e := entry(state.pos);
    if e.None? {
      return None;
    }
    d := Some(DirentOf(e.value));
    state.pos := state.pos + 1;
  }

  /**
   * sabfs_seekdir: the position becomes `off`, converted to the int the
   * state holds; telldir then reports it.
   */
  method Seekdir(state: DirState?, off: int)
    requires state != null ==> state.Valid()
    modifies state
    ensures state != null ==> state.Valid() && state.path == old(state.path) && state.count == old(state.count)
    ensures state != null ==> Telldir(state) == I32(off)
    ensures state != null && IsI32(off) ==> Telldir(state) == off
  {
    if state != null {
      state.pos := I32(off);
    }
  }

  /**
   * sabfs_rewinddir: back to position 0, with the count refreshed from
   * the listing of the state's path (`jsCount`, -1 when that fails).
   */
  method Rewinddir(state: DirState?, jsCount: int)
    requires state != null ==> state.Valid()
    requires IsI32(jsCount)
    modifies state
    ensures state != null ==> state.Valid() && state.path == old(state.path)
    ensures state != null ==> Telldir(state) == 0 && state.count == jsCount
  {
    if state != null {
      state.pos := 0;
      state.count := jsCount;
    }
  }

  /** sabfs_closedir: always 0; the state is released. */
  function Closedir(state: DirState?): (r: int)
    ensures r == 0
  {
    0
  }
}
