/**
 * Attribute callbacks of the 9p SABFS backend (hw/9pfs/9p-sabfs-backend.c):
 * lstat and fstat, which assemble a struct stat from the 32-bit words the
 * JavaScript side reports, statfs with its built-in defaults, and the
 * extended-attribute stubs.
 */
module BackendAttrs {
  import opened CTypes

  const BlockSize := 4096
  /** f_type of the file system: the bytes "SABF". */
  const SabfsMagic := 0x53414246
  const NameMax := 255

  /** The eleven 32-bit words sabfs_be_js_stat and sabfs_be_js_lstat write. */
  datatype BeStat = BeStat(
    mode: int, nlink: int, uid: int, gid: int, sizeLo: int, sizeHi: int,
    atime: int, mtime: int, ctime: int, ino: int, blocks: int)

  predicate BeStatOk(j: BeStat)
  {
    && IsU32(j.mode) && IsU32(j.nlink) && IsU32(j.uid) && IsU32(j.gid)
    && IsU32(j.sizeLo) && IsU32(j.sizeHi) && IsU32(j.atime) && IsU32(j.mtime)
    && IsU32(j.ctime) && IsU32(j.ino) && IsU32(j.blocks)
  }

  /** The struct stat fields the backend sets; every other field is zero. */
  datatype StatBuf = StatBuf(
    mode: int, nlink: int, uid: int, gid: int, size: int,
    atime: int, mtime: int, ctime: int, ino: int, blocks: int, blksize: int)

  /**
   * The record lstat and fstat fill in: every word copied, the size
   * rebuilt from its two halves, and a 4096-byte block size.
   */
  function StatBufOf(j: BeStat): (st: StatBuf)
    requires BeStatOk(j)
    ensures st.mode == j.mode && st.nlink == j.nlink && st.uid == j.uid && st.gid == j.gid
    ensures st.atime == j.atime && st.mtime == j.mtime && st.ctime == j.ctime
    ensures st.ino == j.ino && st.blocks == j.blocks && st.blksize == BlockSize
    ensures j.sizeHi < TWO_31 ==> st.size == j.sizeLo + j.sizeHi * TWO_32
  {
    StatBuf(j.mode, j.nlink, j.uid, j.gid, JoinSize(j.sizeLo, j.sizeHi),
            j.atime, j.mtime, j.ctime, j.ino, j.blocks, BlockSize)
  }

  /** A size the JavaScript side splits into its low and high words comes back whole. */
  lemma StatBufSize(j: BeStat, size: int)
    requires BeStatOk(j) && 0 <= size < TWO_63
    requires j.sizeLo == size % TWO_32 && j.sizeHi == size / TWO_32
    ensures StatBufOf(j).size == size
  {
    JoinSplitSize(size);
  }

  /** sabfs_lstat: ENOENT when the JavaScript lstat fails, else the assembled record. */
  function Lstat(js: Option<BeStat>): (res: (int, Option<Errno>, Option<StatBuf>))
    requires js.Some? ==> BeStatOk(js.value)
    ensures js.None? <==> res.0 == -1
    ensures js.None? ==> res.1 == Some(ENOENT) && res.2 == None
    ensures js.Some? ==> res.0 == 0 && res.1 == None && res.2 == Some(StatBufOf(js.value))
  {
    if js.None? then (-1, Some(ENOENT), None) else (0, None, Some(StatBufOf(js.value)))
  }

  /**
   * sabfs_fstat, for a directory fid and for a file fid alike: EBADF without
   * an open state, otherwise a stat (not lstat) of the path the state
   * recorded, with ENOENT when that fails. `statePath` is the state's path.
   */
  function Fstat(statePath: Option<string>, stat: string -> Option<BeStat>): (res: (int, Option<Errno>, Option<StatBuf>))
    requires forall p :: stat(p).Some? ==> BeStatOk(stat(p).value)
    ensures statePath.None? ==> res == (-1, Some(EBADF), None)
    ensures statePath.Some? ==> res == Lstat(stat(statePath.value))
    ensures res.0 == 0 <==> statePath.Some? && stat(statePath.value).Some?
  {
    if statePath.None? then (-1, Some(EBADF), None)
    else
      var js := stat(statePath.value);
      if js.None? then (-1, Some(ENOENT), None) else (0, None, Some(StatBufOf(js.value)))
  }

  /** The five words sabfs_be_js_statfs reports. */
  datatype JsStatfs = JsStatfs(bsize: int, blocks: int, bfree: int, files: int, ffree: int)

  datatype StatfsBuf = StatfsBuf(
    ftype: int, bsize: int, blocks: int, bfree: int, bavail: int,
    files: int, ffree: int, namelen: int)

  /** What statfs reports when the JavaScript side cannot answer. */
  const DefaultStatfs := JsStatfs(4096, 1024 * 1024, 512 * 1024, 65536, 32768)

  /**
   * sabfs_statfs: always succeeds. The counts come from the JavaScript side
   * or, when it fails, from the defaults; the type is "SABF", every free
   * block is available to unprivileged users and names are at most 255 bytes.
   */
  function Statfs(js: Option<JsStatfs>): (res: (int, StatfsBuf))
    ensures res.0 == 0
    ensures res.1.ftype == SabfsMagic && res.1.namelen == NameMax
    ensures res.1.bavail == res.1.bfree
    ensures var src := if js.Some? then js.value else DefaultStatfs;
      && res.1.bsize == src.bsize && res.1.blocks == src.blocks && res.1.bfree == src.bfree
      && res.1.files == src.files && res.1.ffree == src.ffree
    ensures js.None? ==> res.1 == StatfsBuf(SabfsMagic, 4096, 1048576, 524288, 524288, 65536, 32768, 255)
  {
    var s := if js.None? then DefaultStatfs else js.value;
    (0, StatfsBuf(SabfsMagic, s.bsize, s.blocks, s.bfree, s.bfree, s.files, s.ffree, NameMax))
  }

  /** The four extended-attribute callbacks. */
  datatype XattrOp = GetXattr | ListXattr | SetXattr | RemoveXattr

  /** sabfs_lgetxattr, sabfs_llistxattr, sabfs_lsetxattr, sabfs_lremovexattr: unsupported. */
  function Xattr(op: XattrOp): (res: (int, Option<Errno>))
    ensures res == (-1, Some(ENOTSUP))
  {
    (-1, Some(ENOTSUP))
  }
}
