/**
 * The SABFS entry points of hw/9pfs/9p-sabfs.c outside the ELF cache: the
 * table that maps a POSIX descriptor to a SABFS descriptor, the "/pack"
 * path filter, start-up, stat, and the vectored read and write that go
 * through one linear buffer.
 *
 * The globals `sabfs_fd_map[256]`, `sabfs_initialized` and
 * `sabfs_available` are the fields of class Host. The JavaScript SABFS
 * object is an oracle: its answers are parameters.
 */
module SabfsHost {
  import opened CTypes
  import opened CStrings
  import opened IoVec

  const MaxFds := 256
  const Prefix := "/pack"
  const PrefixLen := 5
  const BlockSize := 4096

  /** What sabfs_js_stat reports: the mode, the two 32-bit halves of the size, the inode number. */
  datatype JsStat = JsStat(mode: int, sizeLo: int, sizeHi: int, ino: int)

  predicate JsStatOk(j: JsStat)
  {
    IsU32(j.mode) && IsU32(j.sizeLo) && IsU32(j.sizeHi) && IsU32(j.ino)
  }

  /** The fields sabfs_stat fills in; all others are zero. */
  datatype HostStat = HostStat(mode: int, size: int, ino: int, nlink: int, blksize: int, blocks: int)

  /**
   * What a JavaScript read reports: the count it returns, and the contents
   * of the buffer it was handed afterwards.
   */
  datatype ReadReply = ReadReply(n: int, bytes: seq<byte>)

  /**
   * The JavaScript side sees the C buffer as a view of exactly `count`
   * bytes, so that is what the buffer holds afterwards; the count it
   * returns is not bounded by anything.
   */
  predicate ReplyFits(rep: ReadReply, count: nat)
  {
    |rep.bytes| == count
  }

  /**
   * The bytes a reply reports as read, as far as the buffer holds them:
   * none for a count of zero or less, the whole buffer for a count
   * beyond its end.
   */
  function Delivered(rep: ReadReply): (d: seq<byte>)
    ensures rep.n <= 0 ==> d == []
    ensures rep.n > 0 ==> d == rep.bytes[..Min(rep.n, |rep.bytes|)]
  {
    if rep.n <= 0 then [] else if rep.n < |rep.bytes| then rep.bytes[..rep.n] else rep.bytes
  }

  /** The stat record sabfs_stat builds from a successful JavaScript stat. */
  function HostStatOf(j: JsStat): (st: HostStat)
    requires JsStatOk(j)
    ensures st.mode == j.mode && st.ino == j.ino && st.nlink == 1 && st.blksize == BlockSize
    ensures j.sizeHi < TWO_31 ==> st.size == j.sizeLo + j.sizeHi * TWO_32
    ensures st.size >= 0 ==> st.blocks * 512 >= st.size && (st.blocks == 0 || (st.blocks - 1) * 512 < st.size)
  {
    var size := JoinSize(j.sizeLo, j.sizeHi);
    HostStat(j.mode, size, j.ino, 1, BlockSize, CDiv(size + 511, 512))
  }

  /** A file of `size` bytes, reported by the JavaScript side in halves, gets back its size. */
  lemma HostStatSize(mode: int, size: int, ino: int)
    requires IsU32(mode) && IsU32(ino) && 0 <= size < TWO_63
    ensures JsStatOk(JsStat(mode, size % TWO_32, size / TWO_32, ino))
    ensures HostStatOf(JsStat(mode, size % TWO_32, size / TWO_32, ino)).size == size
  {
    JoinSplitSize(size);
  }

  class Host {
    var fdMap: array<int>
    var initialized: bool
    var available: bool

    ghost predicate Valid()
      reads this
    {
      fdMap.Length == MaxFds
    }

    /** The program's static state: a zero-filled map, not initialised, SABFS unavailable. */
    constructor ()
      ensures Valid() && fresh(fdMap)
      ensures !initialized && !available
      ensures forall p :: 0 <= p < MaxFds ==> fdMap[p] == 0
    {
      fdMap := new int[MaxFds](_ => 0);
      initialized, available := false, false;
    }

    /**
     * sabfs_init: the first call clears the map and asks the JavaScript side
     * whether SABFS is there; later calls only report the first answer.
     * The result is 0 when SABFS is available and -1 otherwise.
     */
    method Init(jsAvailable: bool) returns (r: int)
      requires Valid()
      modifies this, fdMap
      ensures Valid() && fdMap == old(fdMap) && initialized
      ensures old(initialized) ==> available == old(available) && fdMap[..] == old(fdMap[..])
      ensures !old(initialized) ==>
        available == jsAvailable && forall p :: 0 <= p < MaxFds ==> fdMap[p] == -1
      ensures r == (if available then 0 else -1)
    {
      if initialized {
        return if available then 0 else -1;
      }
      initialized := true;
      var i := 0;
      while i < MaxFds
        invariant 0 <= i <= MaxFds
        invariant fdMap == old(fdMap) && Valid() && initialized
        invariant forall p :: 0 <= p < i ==> fdMap[p] == -1
      {
        fdMap[i] := -1;
        i := i + 1;
      }
      available := jsAvailable;
      r := if available then 0 else -1;
    }

    /**
     * sabfs_is_ready: initialises on first use, then requires both that SABFS
     * is available and that the JavaScript side reports it ready.
     */
    method IsReady(jsAvailable: bool, jsReady: bool) returns (ready: bool)
      requires Valid()
      modifies this, fdMap
      ensures Valid() && fdMap == old(fdMap) && initialized
      ensures old(initialized) ==> available == old(available) && fdMap[..] == old(fdMap[..])
      ensures !old(initialized) ==>
        available == jsAvailable && forall p :: 0 <= p < MaxFds ==> fdMap[p] == -1
      ensures ready <==> available && jsReady
    {
      if !initialized {
        var _ := Init(jsAvailable);
      }
      ready := available && jsReady;
    }

    /** sabfs_fd_map_get: the SABFS descriptor recorded for a POSIX descriptor, -1 outside the table. */
    function MapGet(posixFd: int): (r: int)
      reads this, fdMap
      requires Valid()
      ensures !(0 <= posixFd < MaxFds) ==> r == -1
    {
      if 0 <= posixFd < MaxFds then fdMap[posixFd] else -1
    }

    /** sabfs_fd_map_add: afterwards MapGet(posixFd) is sabfsFd; an out-of-range descriptor is ignored. */
    method MapAdd(posixFd: int, sabfsFd: int)
      requires Valid()
      modifies fdMap
      ensures Valid()
      ensures 0 <= posixFd < MaxFds ==> MapGet(posixFd) == sabfsFd
      ensures forall p :: p != posixFd ==> MapGet(p) == old(MapGet(p))
      ensures !(0 <= posixFd < MaxFds) ==> fdMap[..] == old(fdMap[..])
    {
      if 0 <= posixFd < MaxFds {
        fdMap[posixFd] := sabfsFd;
      }
    }

    /**
     * sabfs_fd_map_remove: afterwards MapGet(posixFd) is -1. When a SABFS
     * descriptor was recorded it is closed: `closed` names it.
     */
    method MapRemove(posixFd: int) returns (closed: Option<int>)
      requires Valid()
      modifies fdMap
      ensures Valid()
      ensures MapGet(posixFd) == -1
      ensures forall p :: p != posixFd ==> MapGet(p) == old(MapGet(p))
      ensures closed == (if old(MapGet(posixFd)) >= 0 then Some(old(MapGet(posixFd))) else None)
    {
      closed := None;
      if 0 <= posixFd < MaxFds {
        if fdMap[posixFd] >= 0 {
          closed := Some(fdMap[posixFd]);
        }
        fdMap[posixFd] := -1;
      }
    }

    /**
     * sabfs_should_handle: SABFS is available, the path is not NULL and it
     * starts with "/pack" (a 5-byte strncmp, so "/package" qualifies too).
     */
    function ShouldHandle(path: Option<string>): (b: bool)
      reads this
      requires path.Some? ==> IsCString(path.value)
      ensures b <==> available && path.Some? && HasPrefix(path.value, Prefix)
    {
      if !available || path.None? then false
      else
        StrNCmpIsPrefix(path.value, Prefix);
        StrNEq(path.value, Prefix, PrefixLen)
    }

    /**
     * sabfs_open: ENOENT when SABFS is unavailable; otherwise the descriptor
     * the JavaScript open returned (`jsFd`), with ENOENT when it is negative.
     */
    method Open(path: string, flags: int, mode: int, jsFd: int) returns (fd: int, errno: Option<Errno>)
      requires Valid()
      ensures !available ==> fd == -1 && errno == Some(ENOENT)
      ensures available ==> fd == jsFd && (errno == Some(ENOENT) <==> jsFd < 0) && (jsFd >= 0 ==> errno == None)
    {
      if !available {
        return -1, Some(ENOENT);
      }
      fd, errno := jsFd, if jsFd < 0 then Some(ENOENT) else None;
    }

    /** sabfs_close: EBADF when SABFS is unavailable; otherwise the JavaScript close's answer. */
    method Close(fd: int, jsResult: int) returns (r: int, errno: Option<Errno>)
      requires Valid()
      ensures !available ==> r == -1 && errno == Some(EBADF)
      ensures available ==> r == jsResult && errno == None
    {
      if !available {
        return -1, Some(EBADF);
      }
      r, errno := jsResult, None;
    }

    /**
     * sabfs_pread: EBADF when SABFS is unavailable; otherwise the JavaScript
     * pread's count, passed on unchecked, with EIO when it is negative, and
     * the bytes it read into the `count`-byte buffer.
     */
    method Pread(fd: int, count: nat, offset: int, rep: ReadReply) returns (r: int, errno: Option<Errno>, data: seq<byte>)
      requires Valid()
      requires ReplyFits(rep, count)
      ensures !available ==> r == -1 && errno == Some(EBADF) && data == []
      ensures available ==> r == rep.n && (errno == Some(EIO) <==> r < 0) && (r >= 0 ==> errno == None)
      ensures available ==> data == rep.bytes[..Min(Max(r, 0), count)]
      ensures available && r > count ==> |data| == count < r
    {
      if !available {
        return -1, Some(EBADF), [];
      }
      r, errno := rep.n, if rep.n < 0 then Some(EIO) else None;
      data := Delivered(rep);
    }

    /**
     * sabfs_pwrite: EBADF when SABFS is unavailable; otherwise the JavaScript
     * pwrite's answer for `data`, with EIO when it is negative.
     */
    method Pwrite(fd: int, data: seq<byte>, offset: int, pwrite: (int, seq<byte>, int) -> int) returns (r: int, errno: Option<Errno>)
      requires Valid()
      ensures !available ==> r == -1 && errno == Some(EBADF)
      ensures available ==> r == pwrite(fd, data, offset) && (errno == Some(EIO) <==> r < 0) && (r >= 0 ==> errno == None)
    {
      if !available {
        return -1, Some(EBADF);
      }
      r := pwrite(fd, data, offset);
      errno := if r < 0 then Some(EIO) else None;
    }

    /** sabfs_fstat: not implemented; it always fails with EBADF. */
    method Fstat(fd: int) returns (r: int, errno: Option<Errno>)
      ensures r == -1 && errno == Some(EBADF)
    {
      r, errno := -1, Some(EBADF);
    }

    /**
     * sabfs_stat: ENOENT when SABFS is unavailable or its stat fails;
     * otherwise the record built from the JavaScript answer `js`.
     */
    method Stat(path: string, js: Option<JsStat>) returns (r: int, errno: Option<Errno>, st: Option<HostStat>)
      requires Valid()
      requires js.Some? ==> JsStatOk(js.value)
      ensures !available || js.None? ==> r == -1 && errno == Some(ENOENT) && st == None
      ensures available && js.Some? ==> r == 0 && errno == None && st == Some(HostStatOf(js.value))
    {
      if !available {
        return -1, Some(ENOENT), None;
      }
      if js.None? {
        return -1, Some(ENOENT), None;
      }
      r, errno, st := 0, None, Some(HostStatOf(js.value));
    }

    /**
     * sabfs_preadv: one JavaScript pread of the vector's total length at
     * `offset` into a linear buffer, whose first bytes are then scattered
     * over the vector's buffers in order, each filled before the next.
     * `pread` answers for SABFS.pread(descriptor, count, offset). A count
     * beyond the vector's total is returned as it is, with every buffer
     * filled.
     */
    method PreadV(posixFd: int, lens: seq<nat>, offset: int, pread: (int, nat, int) -> ReadReply)
      returns (r: int, errno: Option<Errno>, chunks: seq<seq<byte>>)
      requires Valid()
      requires forall fd, n, o :: ReplyFits(pread(fd, n, o), n)
      ensures MapGet(posixFd) < 0 ==> r == -1 && errno == Some(EBADF) && chunks == []
      ensures MapGet(posixFd) >= 0 ==>
        var rep := pread(MapGet(posixFd), Sum(lens), offset);
        && r == rep.n && errno == None
        && (r <= 0 ==> chunks == [])
        && |rep.bytes| == Sum(lens)
        && (r > 0 ==> Flatten(chunks) == rep.bytes[..Min(r, |rep.bytes|)])
        && |chunks| <= |lens|
        && (forall i :: 0 <= i < |chunks| ==> |chunks[i]| <= lens[i])
        && (forall i :: 0 <= i < |chunks| - 1 ==> |chunks[i]| == lens[i])
    {
      var sabfsFd := MapGet(posixFd);
      if sabfsFd < 0 {
        return -1, Some(EBADF), [];
      }
      var total := TotalLength(lens);
      var rep := pread(sabfsFd, total, offset);
      r, errno, chunks := rep.n, None, [];
      if rep.n > 0 {
        var copied;
        chunks, copied := Scatter(Delivered(rep), lens);
      }
    }

    /**
     * sabfs_pwritev: the vector's buffers gathered end to end into one
     * buffer, written by one JavaScript pwrite at `offset`; its answer is
     * the result. `pwrite` answers for SABFS.pwrite(descriptor, bytes, offset).
     */
    method PwriteV(posixFd: int, iovs: seq<seq<byte>>, offset: int, pwrite: (int, seq<byte>, int) -> int)
      returns (r: int, errno: Option<Errno>, sent: seq<byte>)
      requires Valid()
      ensures MapGet(posixFd) < 0 ==> r == -1 && errno == Some(EBADF) && sent == []
      ensures MapGet(posixFd) >= 0 ==>
        && sent == Flatten(iovs)
        && |sent| == Sum(Lengths(iovs))
        && r == pwrite(MapGet(posixFd), sent, offset)
        && errno == None
    {
      var sabfsFd := MapGet(posixFd);
      if sabfsFd < 0 {
        return -1, Some(EBADF), [];
      }
      var buf: seq<byte> := [];
      var i := 0;
      while i < |iovs|
        invariant 0 <= i <= |iovs|
        invariant buf == Flatten(iovs[..i])
      {
        FlattenAppend(iovs[..i], iovs[i]);
        assert iovs[..i + 1] == iovs[..i] + [iovs[i]];
        buf := buf + iovs[i];
        i := i + 1;
      }
      assert iovs[..i] == iovs;
      FlattenLength(iovs);
      r, errno, sent := pwrite(sabfsFd, buf, offset), None, buf;
    }
  }
}
