/**
 * The ELF cache of hw/9pfs/9p-sabfs.c: executables preloaded into memory
 * so that the guest kernel's ELF loader reads them without 9p round
 * trips, and the virtual file descriptors (30000 and up) that read them.
 *
 * The two global tables `elf_cache[32]` and `elf_cache_fds[256]` and the
 * counter `elf_cache_next_fd` are the fields of class Cache. The object
 * invariant Valid() adds what the code relies on without checking: an
 * entry's refcount is exactly the number of open descriptors on it, and
 * every open descriptor reads an active entry.
 */
module ElfCache {
  import opened CTypes
  import opened CStrings
  import opened IoVec

  const MaxFiles := 32
  const MaxFileSize := 16 * 1024 * 1024
  const FdBase := 30000
  const MaxFds := 256
  /** Size of the `path` buffer of an entry; at most PathBufLen - 1 characters are kept. */
  const PathBufLen := 256
  /** 0100755: a regular file, executable by everyone. */
  const ExecMode := 0x81ED
  const InoBase := 1000000
  const BlockSize := 4096

  const SeekSet := 0
  const SeekCur := 1
  const SeekEnd := 2

  datatype Entry = Entry(path: string, data: seq<byte>, size: nat, mode: int, refcount: nat, active: bool)

  datatype FdSlot = FdSlot(cacheIdx: int, offset: int, active: bool)

  /** The fields elf_cache_fstat and elf_cache_stat fill in; all others are zero. */
  datatype Stat = Stat(mode: int, size: nat, ino: int, nlink: int, blksize: int, blocks: nat)

  const EmptyEntry := Entry("", [], 0, 0, 0, false)
  const ClosedSlot := FdSlot(0, 0, false)

  // ---------------------------------------------------------------------
  // Searches over the tables, as functions of their contents
  // ---------------------------------------------------------------------

  /** The first active entry at or after i whose path is `path`, or -1. */
  function LookupFrom(es: seq<Entry>, path: string, i: nat): (r: int)
    requires i <= |es|
    ensures r == -1 || i <= r < |es|
    ensures r >= 0 ==> es[r].active && es[r].path == path
    ensures forall j :: i <= j < |es| && (r < 0 || j < r) ==> !(es[j].active && es[j].path == path)
    decreases |es| - i
  {
    if i == |es| then -1
    else if es[i].active && es[i].path == path then i
    else LookupFrom(es, path, i + 1)
  }

  /** elf_cache_find: the first active entry holding `path`, or -1. */
  function Lookup(es: seq<Entry>, path: string): int
  {
    LookupFrom(es, path, 0)
  }

  /** The first inactive entry at or after i, or -1. */
  function FirstInactiveFrom(es: seq<Entry>, i: nat): (r: int)
    requires i <= |es|
    ensures r == -1 || i <= r < |es|
    ensures r >= 0 ==> !es[r].active
    ensures forall j :: i <= j < |es| && (r < 0 || j < r) ==> es[j].active
    decreases |es| - i
  {
    if i == |es| then -1
    else if !es[i].active then i
    else FirstInactiveFrom(es, i + 1)
  }

  /** The first entry at or after i that no descriptor references, or -1. */
  function FirstUnreferencedFrom(es: seq<Entry>, i: nat): (r: int)
    requires i <= |es|
    ensures r == -1 || i <= r < |es|
    ensures r >= 0 ==> es[r].refcount == 0
    ensures forall j :: i <= j < |es| && (r < 0 || j < r) ==> es[j].refcount > 0
    decreases |es| - i
  {
    if i == |es| then -1
    else if es[i].refcount == 0 then i
    else FirstUnreferencedFrom(es, i + 1)
  }

  /**
   * The slot elf_cache_find_free hands out: the first inactive entry, else
   * the first entry with refcount 0 (which it evicts), else -1.
   */
  function FreeSlot(es: seq<Entry>): (r: int)
    ensures -1 <= r < |es|
    ensures r == -1 <==> forall j :: 0 <= j < |es| ==> es[j].active && es[j].refcount > 0
    ensures r >= 0 && !es[r].active ==> forall j :: 0 <= j < r ==> es[j].active
    ensures r >= 0 && es[r].active ==>
      es[r].refcount == 0 &&
      (forall j :: 0 <= j < |es| ==> es[j].active) &&
      (forall j :: 0 <= j < r ==> es[j].refcount > 0)
  {
    var i := FirstInactiveFrom(es, 0);
    if i >= 0 then i else FirstUnreferencedFrom(es, 0)
  }

  /**
   * The table after elf_cache_find_free returned i: an active entry there
   * was evicted, its data released; every other entry is as it was.
   */
  function Evicted(es: seq<Entry>, i: int): (r: seq<Entry>)
    ensures |r| == |es|
    ensures forall j :: 0 <= j < |es| && j != i ==> r[j] == es[j]
    ensures 0 <= i < |es| ==> !r[i].active && (!es[i].active ==> r[i] == es[i])
    ensures 0 <= i < |es| && es[i].active ==> r[i].data == [] && r[i].path == es[i].path && r[i].refcount == es[i].refcount
  {
    if 0 <= i < |es| && es[i].active then es[i := es[i].(data := [], active := false)] else es
  }

  /**
   * The entry elf_cache_preload stores for `path` and the loaded bytes:
   * active, unreferenced, executable, sized by the data, under the path
   * cut to what fits its 256-byte buffer.
   */
  function Loaded(path: string, data: seq<byte>): (e: Entry)
    ensures e.active && e.refcount == 0 && e.mode == ExecMode
    ensures e.data == data && e.size == |data|
    ensures |e.path| < PathBufLen && HasPrefix(path, e.path)
    ensures |path| < PathBufLen ==> e.path == path
  {
    Entry(Truncated(path, PathBufLen), data, |data|, ExecMode, 0, true)
  }

  /** Which descriptor slots are open. */
  function Busy(fds: seq<FdSlot>): (busy: seq<bool>)
    ensures |busy| == |fds|
    ensures forall k :: 0 <= k < |fds| ==> busy[k] == fds[k].active
  {
    seq(|fds|, k requires 0 <= k < |fds| => fds[k].active)
  }

  /** The first free descriptor slot at or after k, or -1: the wrap-around search of elf_cache_open. */
  function FirstFreeFrom(busy: seq<bool>, k: nat): (r: int)
    requires k <= |busy|
    ensures r == -1 || k <= r < |busy|
    ensures r >= 0 ==> !busy[r]
    ensures forall j :: k <= j < |busy| && (r < 0 || j < r) ==> busy[j]
    decreases |busy| - k
  {
    if k == |busy| then -1
    else if !busy[k] then k
    else FirstFreeFrom(busy, k + 1)
  }

  /**
   * The descriptor slot elf_cache_open picks AS WRITTEN: the slot after the
   * last descriptor handed out, whether or not it is still open, and the
   * first free slot only once the counter has run past the table.
   */
  function ChooseFdSlotAsWritten(nextFd: int, busy: seq<bool>): (k: int)
    requires |busy| == MaxFds
    ensures nextFd >= FdBase ==> -1 <= k < MaxFds
    ensures FdBase <= nextFd < FdBase + MaxFds ==> k == nextFd - FdBase
    ensures nextFd >= FdBase ==> (k == ChooseFdSlot(nextFd, busy) <==> k < 0 || !busy[k])
  {
    var k := nextFd - FdBase;
    if k < MaxFds then k else FirstFreeFrom(busy, 0)
  }

  /**
   * The slot elf_cache_open is meant to pick: the slot after the last
   * descriptor handed out if it is free, otherwise the first free slot.
   * It never picks an open slot and finds one whenever one exists.
   */
  function ChooseFdSlot(nextFd: int, busy: seq<bool>): (k: int)
    requires |busy| == MaxFds
    ensures -1 <= k < MaxFds
    ensures k >= 0 ==> !busy[k]
    ensures k == -1 <==> forall j :: 0 <= j < MaxFds ==> busy[j]
  {
    var k := nextFd - FdBase;
    if 0 <= k < MaxFds && !busy[k] then k else FirstFreeFrom(busy, 0)
  }

  /** The descriptor bookkeeping elf_cache_open and elf_cache_close touch: open slots and the counter. */
  datatype FdBook = FdBook(busy: seq<bool>, nextFd: int)

  /** A fresh cache: no descriptor open, the counter at 30000. */
  function FreshBook(): FdBook
  {
    FdBook(seq(MaxFds, _ => false), FdBase)
  }

  /** elf_cache_open of a cached path AS WRITTEN, on the bookkeeping: the new book and the descriptor. */
  function OpenAsWritten(b: FdBook): (r: (FdBook, int))
    requires |b.busy| == MaxFds && b.nextFd >= FdBase
    ensures |r.0.busy| == MaxFds && r.0.nextFd >= FdBase
    ensures r.1 == -1 <==> b.nextFd >= FdBase + MaxFds && forall j :: 0 <= j < MaxFds ==> b.busy[j]
    ensures r.1 == -1 ==> r.0 == b
    ensures r.1 != -1 ==>
      && FdBase <= r.1 < FdBase + MaxFds
      && r.0 == FdBook(b.busy[r.1 - FdBase := true], r.1 + 1)
    ensures b.nextFd < FdBase + MaxFds ==> r.1 == b.nextFd
  {
    var k := ChooseFdSlotAsWritten(b.nextFd, b.busy);
    if k < 0 then (b, -1) else (FdBook(b.busy[k := true], FdBase + k + 1), FdBase + k)
  }

  /** elf_cache_close of an open descriptor, on the bookkeeping: its slot is freed, the counter stays. */
  function CloseOnBook(b: FdBook, fd: int): FdBook
    requires FdBase <= fd < FdBase + |b.busy|
  {
    FdBook(b.busy[fd - FdBase := false], b.nextFd)
  }

  /** n opens AS WRITTEN from a fresh cache. */
  function OpensAsWritten(n: nat): (b: FdBook)
    requires n <= MaxFds
    ensures |b.busy| == MaxFds && b.nextFd >= FdBase
  {
    if n == 0 then FreshBook() else OpenAsWritten(OpensAsWritten(n - 1)).0
  }

  lemma {:induction false} OpensAsWrittenFill(n: nat)
    requires n <= MaxFds
    ensures OpensAsWritten(n) == FdBook(seq(MaxFds, j => j < n), FdBase + n)
  {
    if n > 0 {
      OpensAsWrittenFill(n - 1);
      var b := OpensAsWritten(n - 1);
      assert b.busy[n - 1 := true] == seq(MaxFds, j => j < n);
    }
  }

  /**
   * After 256 opens and the close of descriptor 30000, the next open as
   * written wraps around to slot 0 and leaves the counter at 30001 with
   * every slot open.
   */
  lemma ReopenAfterFullClose()
    ensures OpenAsWritten(CloseOnBook(OpensAsWritten(MaxFds), FdBase))
         == (FdBook(seq(MaxFds, _ => true), FdBase + 1), FdBase)
  {
    OpensAsWrittenFill(MaxFds);
    var full := OpensAsWritten(MaxFds);
    var afterClose := CloseOnBook(full, FdBase);
    assert !afterClose.busy[0];
    assert FirstFreeFrom(afterClose.busy, 0) == 0;
    assert afterClose.busy[0 := true] == seq(MaxFds, _ => true);
  }

  /**
   * The counterexample to elf_cache_open as written: open a cached file 256
   * times, close descriptor 30000, open twice more. The first of the two
   * wraps around and reuses slot 0; the second takes slot 1 because the
   * counter now says 30001, although descriptor 30001 is still open. The
   * slot is overwritten and the first file's refcount never drops again.
   * ChooseFdSlot reports the table full instead.
   */
  lemma OpenAsWrittenClobbersOpenFd()
    ensures var full := OpensAsWritten(MaxFds);
            var afterClose := CloseOnBook(full, FdBase);
            var (b1, fd1) := OpenAsWritten(afterClose);
            var (b2, fd2) := OpenAsWritten(b1);
            && fd1 == FdBase
            && b1.busy[1]
            && fd2 == FdBase + 1
            && ChooseFdSlot(b1.nextFd, b1.busy) == -1
  {
    ReopenAfterFullClose();
  }

  /** Whether descriptor slot f is open on entry i. */
  function RefBit(f: FdSlot, i: int): nat
  {
    if f.active && f.cacheIdx == i then 1 else 0
  }

  /** The number of open descriptors on entry i. */
  function Refs(fds: seq<FdSlot>, i: int): nat
  {
    if |fds| == 0 then 0 else Refs(fds[..|fds| - 1], i) + RefBit(fds[|fds| - 1], i)
  }

  /** Replacing one descriptor slot changes each entry's count by that slot's contribution only. */
  lemma {:induction false} RefsUpdate(fds: seq<FdSlot>, k: nat, f: FdSlot, i: int)
    requires k < |fds|
    ensures Refs(fds[k := f], i) == Refs(fds, i) - RefBit(fds[k], i) + RefBit(f, i)
    decreases |fds|
  {
    var n := |fds| - 1;
    var upd := fds[k := f];
    if k == n {
      assert upd[..n] == fds[..n];
    } else {
      assert upd[..n] == fds[..n][k := f];
      RefsUpdate(fds[..n], k, f, i);
    }
  }

  /** An open descriptor on entry i is counted. */
  lemma {:induction false} RefsCounts(fds: seq<FdSlot>, k: nat, i: int)
    requires k < |fds| && fds[k].active && fds[k].cacheIdx == i
    ensures Refs(fds, i) >= 1
    decreases |fds|
  {
    var n := |fds| - 1;
    if k < n {
      RefsCounts(fds[..n], k, i);
    }
  }

  /** An entry with a positive count has an open descriptor on it. */
  lemma {:induction false} RefsWitness(fds: seq<FdSlot>, i: int)
    requires Refs(fds, i) > 0
    ensures exists k :: 0 <= k < |fds| && fds[k].active && fds[k].cacheIdx == i
    decreases |fds|
  {
    var n := |fds| - 1;
    if RefBit(fds[n], i) == 0 {
      RefsWitness(fds[..n], i);
      var k :| 0 <= k < n && fds[..n][k].active && fds[..n][k].cacheIdx == i;
      assert fds[k] == fds[..n][k];
    }
  }

  /** With no descriptor open, no entry is referenced. */
  lemma {:induction false} RefsNone(fds: seq<FdSlot>, i: int)
    requires forall k :: 0 <= k < |fds| ==> !fds[k].active
    ensures Refs(fds, i) == 0
    decreases |fds|
  {
    if |fds| > 0 {
      RefsNone(fds[..|fds| - 1], i);
    }
  }

  /** The stat record built from a cache entry (elf_cache_fstat and elf_cache_stat). */
  function StatOf(idx: int, e: Entry): (st: Stat)
    ensures st.mode == e.mode && st.size == e.size && st.ino == InoBase + idx
    ensures st.nlink == 1 && st.blksize == BlockSize
    ensures st.blocks * 512 >= st.size && (st.blocks == 0 || (st.blocks - 1) * 512 < st.size)
  {
    Stat(e.mode, e.size, InoBase + idx, 1, BlockSize, (e.size + 511) / 512)
  }

  predicate EntryOk(e: Entry)
  {
    e.active ==> |e.data| == e.size && e.size <= MaxFileSize && |e.path| < PathBufLen
  }

  predicate SlotOk(f: FdSlot)
  {
    0 <= f.cacheIdx < MaxFiles && f.offset >= 0
  }

  class Cache {
    var entries: array<Entry>
    var fds: array<FdSlot>
    var nextFd: int

    ghost predicate Valid()
      reads this, entries, fds
    {
      && entries.Length == MaxFiles
      && fds.Length == MaxFds
      && FdBase <= nextFd <= FdBase + MaxFds
      && (forall i :: 0 <= i < MaxFiles ==> EntryOk(entries[i]) && entries[i].refcount == Refs(fds[..], i))
      && (forall k :: 0 <= k < MaxFds ==> SlotOk(fds[k]) && (fds[k].active ==> entries[fds[k].cacheIdx].active))
    }

    /** elf_cache_init: every entry and every descriptor slot inactive. */
    constructor ()
      ensures Valid() && fresh(entries) && fresh(fds)
      ensures forall i :: 0 <= i < MaxFiles ==> !entries[i].active
      ensures forall k :: 0 <= k < MaxFds ==> !fds[k].active
      ensures nextFd == FdBase
    {
      entries := new Entry[MaxFiles](_ => EmptyEntry);
      fds := new FdSlot[MaxFds](_ => ClosedSlot);
      nextFd := FdBase;
      new;
      forall i | 0 <= i < MaxFiles
        ensures Refs(fds[..], i) == 0
      {
        RefsNone(fds[..], i);
      }
    }

    /** elf_cache_is_cache_fd: fd lies in [30000, 30256) and its slot is open. */
    function IsCacheFd(fd: int): (b: bool)
      reads this, entries, fds
      requires Valid()
      ensures b ==> FdBase <= fd < FdBase + MaxFds
    {
      FdBase <= fd < FdBase + MaxFds && fds[fd - FdBase].active
    }

    /** The entry an open cache descriptor reads. */
    function EntryOf(fd: int): Entry
      reads this, entries, fds
      requires Valid() && IsCacheFd(fd)
    {
      entries[fds[fd - FdBase].cacheIdx]
    }

    /** elf_cache_find: a linear scan for the first active entry holding `path`. */
    method Find(path: string) returns (r: int)
      requires Valid()
      ensures r == Lookup(entries[..], path)
      ensures -1 <= r < MaxFiles
      ensures r >= 0 ==> entries[r].active && entries[r].path == path
      ensures r == -1 <==> forall j :: 0 <= j < MaxFiles ==> !(entries[j].active && entries[j].path == path)
    {
      var i := 0;
      while i < MaxFiles
        invariant 0 <= i <= MaxFiles
        invariant LookupFrom(entries[..], path, i) == Lookup(entries[..], path)
      {
        if entries[i].active && entries[i].path == path {
          return i;
        }
        i := i + 1;
      }
      return -1;
    }

    /** elf_cache_is_cached. */
    method IsCached(path: string) returns (b: bool)
      requires Valid()
      ensures b <==> exists j :: 0 <= j < MaxFiles && entries[j].active && entries[j].path == path
    {
      var r := Find(path);
      b := r >= 0;
    }

    /**
     * elf_cache_find_free: the first inactive slot; failing that, the first
     * slot with refcount 0, which is evicted (data freed, marked inactive);
     * failing that, -1.
     */
    method FindFree() returns (i: int)
      requires Valid()
      modifies entries
      ensures Valid()
      ensures i == FreeSlot(old(entries[..]))
      ensures entries[..] == Evicted(old(entries[..]), i)
      ensures i >= 0 ==> !entries[i].active
    {
      i := 0;
      while i < MaxFiles
        invariant 0 <= i <= MaxFiles
        invariant FirstInactiveFrom(entries[..], i) == FirstInactiveFrom(entries[..], 0)
      {
        if !entries[i].active {
          return;
        }
        i := i + 1;
      }
      i := 0;
      while i < MaxFiles
        invariant 0 <= i <= MaxFiles
        invariant FirstUnreferencedFrom(entries[..], i) == FirstUnreferencedFrom(entries[..], 0)
      {
        if entries[i].refcount == 0 {
          forall k | 0 <= k < MaxFds
            ensures !(fds[k].active && fds[k].cacheIdx == i)
          {
            if fds[k].active && fds[k].cacheIdx == i {
              RefsCounts(fds[..], k, i);
            }
          }
          entries[i] := entries[i].(data := [], active := false);
          return;
        }
        i := i + 1;
      }
      i := -1;
    }

    /**
     * elf_cache_preload. `loaded` is what the JavaScript loader returns for
     * `path` (None for its -1); it is consulted only when the path is not
     * cached and a slot was found. A slot evicted on the way stays evicted
     * when loading then fails.
     */
    method Preload(path: string, loaded: Option<seq<byte>>) returns (r: int)
      requires Valid()
      requires loaded.Some? ==> |loaded.value| <= MaxFileSize
      modifies entries
      ensures Valid()
      ensures r == 0 || r == -1
      ensures Lookup(old(entries[..]), path) >= 0 ==> r == 0 && entries[..] == old(entries[..])
      ensures Lookup(old(entries[..]), path) < 0 ==>
        var i := FreeSlot(old(entries[..]));
        && (i < 0 ==> r == -1 && entries[..] == old(entries[..]))
        && (i >= 0 && loaded.None? ==> r == -1 && entries[..] == Evicted(old(entries[..]), i))
        && (i >= 0 && loaded.Some? ==> r == 0 && entries[..] == Evicted(old(entries[..]), i)[i := Loaded(path, loaded.value)])
      ensures r == 0 && |path| < PathBufLen ==> Lookup(entries[..], path) >= 0
      ensures r == 0 && |path| >= PathBufLen ==> Lookup(entries[..], path) == Lookup(old(entries[..]), path)
    {
      var c := Find(path);
      if c >= 0 {
        return 0;
      }
      var i := FindFree();
      if i < 0 {
        return -1;
      }
      if loaded.None? {
        return -1;
      }
      forall k | 0 <= k < MaxFds
        ensures !(fds[k].active && fds[k].cacheIdx == i)
      {
      }
      ghost var before := entries[..];
      entries[i] := Loaded(path, loaded.value);
      assert entries[..] == before[i := Loaded(path, loaded.value)];
      forall j | 0 <= j < MaxFiles
        ensures entries[j].refcount == Refs(fds[..], j)
      {
        if j == i {
          if Refs(fds[..], i) > 0 {
            RefsWitness(fds[..], i);
          }
        }
      }
      if |path| < PathBufLen {
        assert entries[..][i].active && entries[..][i].path == path;
      } else {
        forall j | 0 <= j < MaxFiles
          ensures !(entries[..][j].active && entries[..][j].path == path)
        {
          if j != i {
            assert entries[..][j].active ==> before[j] == old(entries[..])[j];
          }
        }
      }
      r := 0;
    }

    /**
     * The descriptor slot elf_cache_open takes, once corrected: the
     * counter's slot when it is free, otherwise the first free slot found
     * by a scan from slot 0, or -1 when every slot is in use.
     */
    method FreeFdSlot() returns (k: int)
      requires Valid()
      ensures k == ChooseFdSlot(nextFd, Busy(fds[..]))
    {
      k := nextFd - FdBase;
      if k < MaxFds && !fds[k].active {
        return k;
      }
      k := 0;
      while k < MaxFds
        invariant 0 <= k <= MaxFds
        invariant FirstFreeFrom(Busy(fds[..]), k) == FirstFreeFrom(Busy(fds[..]), 0)
      {
        if !fds[k].active {
          return k;
        }
        k := k + 1;
      }
      return -1;
    }

    /**
     * elf_cache_open, with the descriptor slot chosen by ChooseFdSlot: -1
     * for an uncached path or a full table; otherwise descriptor
     * 30000 + k for a free slot k, opened at offset 0, and the entry's
     * refcount goes up by exactly one.
     */
    method Open(path: string) returns (fd: int)
      requires Valid()
      modifies this, entries, fds
      ensures Valid()
      ensures var c := Lookup(old(entries[..]), path);
              var k := ChooseFdSlot(old(nextFd), Busy(old(fds[..])));
        if c < 0 || k < 0 then
          && fd == -1
          && entries[..] == old(entries[..]) && fds[..] == old(fds[..]) && nextFd == old(nextFd)
        else
          && fd == FdBase + k
          && !old(fds[k].active)
          && fds[..] == old(fds[..])[k := FdSlot(c, 0, true)]
          && entries[..] == old(entries[..])[c := old(entries[c]).(refcount := old(entries[c].refcount) + 1)]
          && nextFd == fd + 1
    {
      var c := Find(path);
      if c < 0 {
        return -1;
      }
      var k := FreeFdSlot();
      if k < 0 {
        return -1;
      }
      ghost var oldFds := fds[..];
      ghost var oldEntries := entries[..];
      fd := FdBase + k;
      fds[k] := FdSlot(c, 0, true);
      entries[c] := entries[c].(refcount := entries[c].refcount + 1);
      nextFd := fd + 1;
      assert fds[..] == oldFds[k := FdSlot(c, 0, true)];
      forall i | 0 <= i < MaxFiles
        ensures entries[i].refcount == Refs(fds[..], i)
      {
        RefsUpdate(oldFds, k, FdSlot(c, 0, true), i);
      }
    }

    /**
     * elf_cache_pread: -1 unless fd is an open cache descriptor; otherwise
     * the bytes of the file from `offset`, as many as `count` allows and
     * the file holds. The descriptor's own offset is not used or moved.
     */
    method Pread(fd: int, count: nat, offset: int) returns (r: int, bytes: seq<byte>)
      requires Valid()
      requires offset >= 0
      ensures !IsCacheFd(fd) ==> r == -1 && bytes == []
      ensures IsCacheFd(fd) ==>
        var e := EntryOf(fd);
        && 0 <= r <= count
        && |bytes| == r
        && (offset >= e.size ==> r == 0)
        && (offset < e.size ==> offset + r <= e.size && (r < count ==> offset + r == e.size)
                                && bytes == e.data[offset..offset + r])
    {
      if !IsCacheFd(fd) {
        return -1, [];
      }
      var c := fds[fd - FdBase].cacheIdx;
      if !entries[c].active {
        return -1, [];
      }
      var size := entries[c].size;
      if offset >= size {
        return 0, [];
      }
      var available := size - offset;
      var n := if count < available then count else available;
      r, bytes := n, entries[c].data[offset..offset + n];
    }

    /** elf_cache_read: a pread at the descriptor's offset, which then moves forward by what was read. */
    method Read(fd: int, count: nat) returns (r: int, bytes: seq<byte>)
      requires Valid()
      modifies fds
      ensures Valid()
      ensures entries[..] == old(entries[..])
      ensures !old(IsCacheFd(fd)) ==> r == -1 && bytes == [] && fds[..] == old(fds[..])
      ensures old(IsCacheFd(fd)) ==>
        var k := fd - FdBase;
        var e := old(EntryOf(fd));
        var pos := old(fds[k].offset);
        && 0 <= r <= count
        && (pos < e.size ==> pos + r <= e.size && bytes == e.data[pos..pos + r] && (r < count ==> pos + r == e.size))
        && (pos >= e.size ==> r == 0 && bytes == [])
        && fds[..] == old(fds[..])[k := old(fds[k]).(offset := pos + r)]
    {
      if !IsCacheFd(fd) {
        return -1, [];
      }
      var k := fd - FdBase;
      r, bytes := Pread(fd, count, fds[k].offset);
      if r > 0 {
        ghost var before := fds[..];
        fds[k] := fds[k].(offset := fds[k].offset + r);
        assert fds[..] == before[k := before[k].(offset := before[k].offset + r)];
        forall i | 0 <= i < MaxFiles
          ensures entries[i].refcount == Refs(fds[..], i)
        {
          RefsUpdate(before, k, fds[k], i);
        }
      }
    }

    /**
     * elf_cache_lseek: SEEK_SET, SEEK_CUR and SEEK_END measure from 0, the
     * current offset and the file size; an unknown whence or a negative
     * result gives -1 and leaves the offset alone.
     */
    method Lseek(fd: int, offset: int, whence: int) returns (r: int)
      requires Valid()
      modifies fds
      ensures Valid()
      ensures entries[..] == old(entries[..])
      ensures !old(IsCacheFd(fd)) ==> r == -1 && fds[..] == old(fds[..])
      ensures old(IsCacheFd(fd)) ==>
        var k := fd - FdBase;
        var target :=
          if whence == SeekSet then offset
          else if whence == SeekCur then old(fds[k].offset) + offset
          else old(EntryOf(fd).size) + offset;
        if whence !in {SeekSet, SeekCur, SeekEnd} || target < 0 then
          r == -1 && fds[..] == old(fds[..])
        else
          r == target && fds[..] == old(fds[..])[k := old(fds[k]).(offset := target)]
    {
      if !IsCacheFd(fd) {
        return -1;
      }
      var k := fd - FdBase;
      var c := fds[k].cacheIdx;
      var size := entries[c].size;
      var target;
      if whence == SeekSet {
        target := offset;
      } else if whence == SeekCur {
        target := fds[k].offset + offset;
      } else if whence == SeekEnd {
        target := size + offset;
      } else {
        return -1;
      }
      if target < 0 {
        return -1;
      }
      ghost var before := fds[..];
      fds[k] := fds[k].(offset := target);
      assert fds[..] == before[k := before[k].(offset := target)];
      forall i | 0 <= i < MaxFiles
        ensures entries[i].refcount == Refs(fds[..], i)
      {
        RefsUpdate(before, k, fds[k], i);
      }
      r := target;
    }

    /** elf_cache_fstat: the stat record of the entry an open cache descriptor reads. */
    method Fstat(fd: int) returns (r: int, st: Option<Stat>)
      requires Valid()
      ensures !IsCacheFd(fd) ==> r == -1 && st == None
      ensures IsCacheFd(fd) ==>
        var c := fds[fd - FdBase].cacheIdx;
        r == 0 && st == Some(StatOf(c, entries[c]))
    {
      if !IsCacheFd(fd) {
        return -1, None;
      }
      var c := fds[fd - FdBase].cacheIdx;
      r, st := 0, Some(StatOf(c, entries[c]));
    }

    /** elf_cache_stat: the stat record of the entry holding `path`, or -1 if none does. */
    method StatPath(path: string) returns (r: int, st: Option<Stat>)
      requires Valid()
      ensures var c := Lookup(entries[..], path);
        if c < 0 then r == -1 && st == None
        else r == 0 && st == Some(StatOf(c, entries[c])) && st.value.size == |entries[c].data|
    {
      var c := Find(path);
      if c < 0 {
        return -1, None;
      }
      r, st := 0, Some(StatOf(c, entries[c]));
    }

    /**
     * elf_cache_close: -1 unless fd is an open cache descriptor; otherwise
     * the slot is closed and its entry loses one reference. The source's
     * guard against a refcount of 0 never fires: the entry counts this
     * descriptor.
     */
    method Close(fd: int) returns (r: int)
      requires Valid()
      modifies entries, fds
      ensures Valid()
      ensures !old(IsCacheFd(fd)) ==> r == -1 && entries[..] == old(entries[..]) && fds[..] == old(fds[..])
      ensures old(IsCacheFd(fd)) ==>
        var k := fd - FdBase;
        var c := old(fds[k].cacheIdx);
        && r == 0
        && old(entries[c].refcount) > 0
        && fds[..] == old(fds[..])[k := old(fds[k]).(active := false)]
        && entries[..] == old(entries[..])[c := old(entries[c]).(refcount := old(entries[c].refcount) - 1)]
    {
      if !IsCacheFd(fd) {
        return -1;
      }
      var k := fd - FdBase;
      var c := fds[k].cacheIdx;
      RefsCounts(fds[..], k, c);
      ghost var before := fds[..];
      fds[k] := fds[k].(active := false);
      assert fds[..] == before[k := before[k].(active := false)];
      if entries[c].refcount > 0 {
        entries[c] := entries[c].(refcount := entries[c].refcount - 1);
      }
      forall i | 0 <= i < MaxFiles
        ensures entries[i].refcount == Refs(fds[..], i)
      {
        RefsUpdate(before, k, fds[k], i);
      }
      r := 0;
    }

    /**
     * elf_cache_preadv: fills the buffers of the vector in order from
     * `offset`, each as far as the file allows; a buffer left short ends
     * the read. The result is what one pread of the vector's total length
     * would give, scattered over the buffers.
     */
    method PreadV(fd: int, lens: seq<nat>, offset: int) returns (r: int, chunks: seq<seq<byte>>)
      requires Valid()
      requires offset >= 0
      ensures !IsCacheFd(fd) ==> r == -1 && chunks == []
      ensures IsCacheFd(fd) ==>
        var e := EntryOf(fd);
        && 0 <= r <= Sum(lens)
        && (offset >= e.size ==> r == 0 && chunks == [])
        && (offset < e.size ==>
              && offset + r <= e.size
              && (r < Sum(lens) ==> offset + r == e.size)
              && Flatten(chunks) == e.data[offset..offset + r])
        && |chunks| <= |lens|
        && (forall i :: 0 <= i < |chunks| ==> |chunks[i]| <= lens[i])
        && (forall i :: 0 <= i < |chunks| - 1 ==> |chunks[i]| == lens[i])
    {
      if !IsCacheFd(fd) {
        return -1, [];
      }
      var c := fds[fd - FdBase].cacheIdx;
      if !entries[c].active {
        return -1, [];
      }
      var size := entries[c].size;
      var data := entries[c].data;
      if offset >= size {
        return 0, [];
      }
      var total;
      chunks, total := Scatter(data[offset..size], lens);
      r := total;
    }
  }
}
