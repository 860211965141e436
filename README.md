# SABFS in qemu-wasm, modelled in Dafny

This project models the three C files of qemu-wasm that connect an emulated
guest to SABFS, the SharedArrayBuffer file system served from JavaScript:

- `hw/9pfs/9p-sabfs.c` holds three parts:
  - the ELF cache, which keeps executables in memory and reads them through
    virtual descriptors 30000 and up;
  - the table that maps a POSIX descriptor to a SABFS descriptor;
  - the "/pack" path filter, start-up, stat, and the vectored read and write.
- `hw/9pfs/9p-sabfs-backend.c` is the 9p file-system backend whose callbacks
  forward to SABFS. It covers path walking, open and create, remove, the
  directory cursor, vectored I/O, stat, statfs and the xattr stubs.
- `target/i386/tcg/sysemu/seg_helper.c` holds two parts:
  - the SYSCALL interceptor. It serves read, write, open, close, stat, fstat
    and openat on "/mnt/pvfs/" files from SABFS. It keeps its own guest
    descriptor table, numbered from 10000.
  - `helper_check_io`, the TSS I/O permission bit-map check.

Every JavaScript (EM_JS) call is an oracle. Its answer is a parameter: a
value, a function, or the `Js` record of the interceptor. Global tables that
the C code updates in place are classes over arrays:

- `ElfCache.Cache`
- `SabfsHost.Host`
- `GuestFds.GuestFdTable`
- `SyscallIntercept.Interceptor` and its `Cpu`
- `BackendDir.DirState`

Code that only computes is modelled as functions. C integer widths are
written out: `U64`, `I32`, `I64`, `JoinSize`, and 64-bit address wrap-around
in guest memory.

The modules are listed below. Each file holds one module.

| module | models |
|---|---|
| `CTypes`, `CStrings`, `IoVec` | C integer conversions, `strncmp`/`strrchr`/`snprintf`, iovec sums and the scatter loop of a vectored read |
| `ElfCache` | the ELF cache of 9p-sabfs.c |
| `SabfsHost` | the rest of 9p-sabfs.c |
| `BackendPaths`, `BackendFiles`, `BackendDir`, `BackendIo`, `BackendAttrs` | 9p-sabfs-backend.c |
| `GuestFds`, `GuestMemory`, `SyscallIntercept` | the interceptor of seg_helper.c |
| `CheckIo` | helper_check_io of seg_helper.c |

Some behaviour of the code is easy to miss, and the model keeps it as
written:

- A read or write with a count of 0 returns -ENOMEM, because `g_malloc(0)`
  returns NULL. Larger counts are capped at 65536.
- `sabfs_should_handle` compares only 5 bytes, so "/package/x" is handled
  as well as "/pack/x".
- The interceptor asks whether SABFS is available only until the answer is
  yes. After that the answer is kept for good.

## Model

| member | source | states |
|---|---|---|
| CTypes.CDiv | hw/9pfs/9p-sabfs.c:738 | C division truncates toward zero: the remainder takes the sign of the dividend |
| CTypes.U64 | target/i386/tcg/sysemu/seg_helper.c:315 | a uint64_t/target_ulong value is the 64-bit value congruent to it modulo 2^64, and unchanged when it already fits |
| CTypes.I32 | target/i386/tcg/sysemu/seg_helper.c:321 | the int conversion of a register keeps the low 32 bits as a signed value, unchanged when it fits |
| CTypes.I64 | hw/9pfs/9p-sabfs-backend.c:283 | storing a uint64_t into a signed 64-bit field reads the same bits as signed |
| CTypes.JoinSize | hw/9pfs/9p-sabfs-backend.c:283 | lo + (hi << 32) is the whole size whenever hi is below 2^31 |
| CTypes.JoinSplitSize | hw/9pfs/9p-sabfs-backend.c:38-40 | splitting a size into the words the JavaScript side sends and joining them gives the size back, for every size below 2^63 |
| CStrings.StrNCmpIsPrefix | hw/9pfs/9p-sabfs.c:643 | strncmp(s, p, strlen(p)) == 0 holds exactly when p is a prefix of s |
| CStrings.StrNEqFrom | hw/9pfs/9p-sabfs.c:643 | for C strings, the comparison from position i on succeeds exactly when both NUL-padded buffers agree at every position from i up to n |
| CStrings.StrNEq | target/i386/tcg/sysemu/seg_helper.c:298 | for C strings, strncmp(a, b, n) == 0 exactly when the NUL-padded buffers agree on their first n positions |
| CStrings.LastIndexOf | hw/9pfs/9p-sabfs-backend.c:685-687 | strrchr finds the last occurrence: that character, and none after it |
| CStrings.Truncated | hw/9pfs/9p-sabfs-backend.c:337 | a copy into a buffer of cap bytes keeps a prefix of at most cap - 1 characters, and all of a shorter string |
| IoVec.Lengths | hw/9pfs/9p-sabfs.c:609-612 | one length per iovec buffer, equal to its size |
| IoVec.SumAppend | hw/9pfs/9p-sabfs.c:570-573 | the running total over a vector grows by each buffer's length |
| IoVec.FlattenAppend | hw/9pfs/9p-sabfs.c:621-625 | gathering one more buffer appends its bytes |
| IoVec.SumPrefix | hw/9pfs/9p-sabfs.c:570-573 | a prefix of a vector is never longer than the vector |
| IoVec.FlattenLength | hw/9pfs/9p-sabfs.c:608-625 | the gathered buffer has the vector's total length |
| IoVec.TotalLength | hw/9pfs/9p-sabfs.c:569-573 | the loop's total is the sum of the buffer lengths |
| IoVec.ScatterStep | hw/9pfs/9p-sabfs.c:585-592 | one more buffer filled as far as the bytes last keeps the copied bytes end to end, every buffer but a short last one full |
| IoVec.Scatter | hw/9pfs/9p-sabfs.c:585-592 | as many bytes as both the source and the vector allow are copied, in order, end to end; every buffer but the last one touched is full |
| ElfCache.LookupFrom | hw/9pfs/9p-sabfs.c:72-80 | the first active entry at or after i holding the path; none before it matches |
| ElfCache.FirstInactiveFrom | hw/9pfs/9p-sabfs.c:85-89 | the first inactive entry from i on; all before it are active |
| ElfCache.FirstUnreferencedFrom | hw/9pfs/9p-sabfs.c:90-100 | the first entry from i on with refcount 0; all before it are referenced |
| ElfCache.FreeSlot | hw/9pfs/9p-sabfs.c:83-102 | a slot is found unless every entry is active and referenced; an inactive slot is preferred to evicting an unreferenced one |
| ElfCache.Evicted | hw/9pfs/9p-sabfs.c:91-100 | the evicted entry becomes inactive with its data released, keeping its path and refcount; every other entry is unchanged |
| ElfCache.Loaded | hw/9pfs/9p-sabfs.c:176-182 | the loaded entry is active, unreferenced, mode 0100755, holds the data and its size, under the path cut to fewer than 256 characters |
| ElfCache.Busy | hw/9pfs/9p-sabfs.c:218-219 | slot k is busy exactly when descriptor 30000 + k is open |
| ElfCache.FirstFreeFrom | hw/9pfs/9p-sabfs.c:218-220 | the first free descriptor slot from k on; all before it are busy |
| ElfCache.ChooseFdSlotAsWritten | hw/9pfs/9p-sabfs.c:214-225 | while the counter is below 30256 its slot is taken, open or not; the pick agrees with ChooseFdSlot exactly when it does not land on an open slot |
| ElfCache.ChooseFdSlot | hw/9pfs/9p-sabfs.c:214-225 | the descriptor slot picked is never open, and one is picked whenever any slot is free |
| ElfCache.OpenAsWritten | hw/9pfs/9p-sabfs.c:205-236 | -1 with nothing changed exactly when the counter has passed the table and every slot is open; otherwise the picked slot is marked open and the counter set past the descriptor returned |
| ElfCache.OpensAsWritten | hw/9pfs/9p-sabfs.c:205-236 | repeated opens keep 256 slots and a counter at or above 30000 |
| ElfCache.OpensAsWrittenFill | hw/9pfs/9p-sabfs.c:214-235 | n opens from a fresh cache, as written, occupy slots 0..n-1 and leave the counter at 30000 + n |
| ElfCache.ReopenAfterFullClose | hw/9pfs/9p-sabfs.c:214-225 | after 256 opens and the close of 30000, the next open as written returns 30000 with every slot open and the counter at 30001 |
| ElfCache.OpenAsWrittenClobbersOpenFd | hw/9pfs/9p-sabfs.c:214-225 | after 256 opens, one close and one reopen, the next open as written returns descriptor 30001, which is still open |
| ElfCache.RefsUpdate | hw/9pfs/9p-sabfs.c:228-231 | changing one descriptor slot changes an entry's count of open descriptors by that slot alone |
| ElfCache.RefsCounts | hw/9pfs/9p-sabfs.c:365-368 | an entry with an open descriptor on it has a count of at least one |
| ElfCache.RefsWitness | hw/9pfs/9p-sabfs.c:91-98 | a positive count has an open descriptor behind it |
| ElfCache.RefsNone | hw/9pfs/9p-sabfs.c:55-69 | with no descriptor open every entry's count is 0 |
| ElfCache.StatOf | hw/9pfs/9p-sabfs.c:314-332 | mode, size, inode 1000000 + index, one link, 4096-byte blocks, and the 512-byte block count rounded up |
| ElfCache.Cache.constructor | hw/9pfs/9p-sabfs.c:55-69 | every entry and descriptor slot inactive, the counter at 30000 |
| ElfCache.Cache.IsCacheFd | hw/9pfs/9p-sabfs.c:196-202 | only descriptors in [30000, 30256) whose slot is open |
| ElfCache.Cache.Find | hw/9pfs/9p-sabfs.c:72-80 | the index of the first active entry holding the path, -1 exactly when none does |
| ElfCache.Cache.IsCached | hw/9pfs/9p-sabfs.c:189-193 | true exactly when some active entry holds the path |
| ElfCache.Cache.FindFree | hw/9pfs/9p-sabfs.c:83-102 | returns FreeSlot of the old entries and evicts that slot; no open descriptor reads an evicted entry |
| ElfCache.Cache.Preload | hw/9pfs/9p-sabfs.c:139-186 | a cached path changes nothing; otherwise the free slot is evicted and then loaded, or left evicted when loading fails; a path shorter than 256 characters is then found |
| ElfCache.Cache.FreeFdSlot | hw/9pfs/9p-sabfs.c:214-225 | the slot the scan finds is ChooseFdSlot's: never an open one, and -1 only when all are open |
| ElfCache.Cache.Open | hw/9pfs/9p-sabfs.c:205-236 | -1 for an uncached path or a full table; otherwise a free slot opened at offset 0 on the entry, whose refcount goes up by one (corrected slot choice) |
| ElfCache.Cache.Pread | hw/9pfs/9p-sabfs.c:239-262 | -1 for a non-cache descriptor; otherwise the file's bytes from the offset, short only at end of file |
| ElfCache.Cache.Read | hw/9pfs/9p-sabfs.c:265-277 | a pread at the descriptor's offset, which then advances by the count read |
| ElfCache.Cache.Lseek | hw/9pfs/9p-sabfs.c:280-311 | SEEK_SET/CUR/END from 0, the offset, or the size; an unknown whence or a negative target gives -1 and keeps the offset |
| ElfCache.Cache.Fstat | hw/9pfs/9p-sabfs.c:314-332 | the stat record of the entry an open cache descriptor reads, -1 otherwise |
| ElfCache.Cache.StatPath | hw/9pfs/9p-sabfs.c:335-353 | the stat record of the cached entry for the path, -1 when none |
| ElfCache.Cache.Close | hw/9pfs/9p-sabfs.c:356-371 | closes the slot and drops the entry's refcount by exactly one, which was positive; -1 for other descriptors |
| ElfCache.Cache.PreadV | hw/9pfs/9p-sabfs.c:374-409 | the buffers, laid end to end, hold the file's bytes from the offset; each is full except the last, and the total is short only at end of file |
| SabfsHost.HostStatOf | hw/9pfs/9p-sabfs.c:721-744 | mode, inode, one link, 4096-byte blocks, the joined size and the 512-byte block count rounded up |
| SabfsHost.HostStatSize | hw/9pfs/9p-sabfs.c:492-493 | the size the JavaScript stat splits in two comes back whole |
| SabfsHost.Delivered | hw/9pfs/9p-sabfs.c:583-592 | the bytes a read reports, cut to the buffer: none for a count of zero or less, the first min(count, buffer length) otherwise |
| SabfsHost.Host.constructor | hw/9pfs/9p-sabfs.c:518-526 | static state: a zero-filled map, neither initialised nor available |
| SabfsHost.Host.Init | hw/9pfs/9p-sabfs.c:646-663 | the first call clears the map to -1 and records availability; later calls change nothing; the result is 0 exactly when available |
| SabfsHost.Host.IsReady | hw/9pfs/9p-sabfs.c:665-671 | initialises on first use; ready exactly when available and the JavaScript side is ready |
| SabfsHost.Host.MapGet | hw/9pfs/9p-sabfs.c:552-558 | -1 for a descriptor outside the table |
| SabfsHost.Host.MapAdd | hw/9pfs/9p-sabfs.c:535-540 | an in-range descriptor maps to the SABFS descriptor, and no other entry changes |
| SabfsHost.Host.MapRemove | hw/9pfs/9p-sabfs.c:542-550 | the descriptor becomes unmapped, no other entry changes, and the SABFS descriptor it had is the one closed |
| SabfsHost.Host.ShouldHandle | hw/9pfs/9p-sabfs.c:634-644 | true exactly when SABFS is available and the path is non-NULL and starts with "/pack" |
| SabfsHost.Host.Open | hw/9pfs/9p-sabfs.c:673-684 | ENOENT when unavailable or when the JavaScript open fails; otherwise its descriptor |
| SabfsHost.Host.Close | hw/9pfs/9p-sabfs.c:686-693 | EBADF when unavailable; otherwise the JavaScript result |
| SabfsHost.Host.Pread | hw/9pfs/9p-sabfs.c:695-706 | EBADF when unavailable; otherwise the JavaScript count unchecked, EIO exactly when it is negative, and the first min(count, requested) bytes of the buffer; a count above the request exceeds the bytes delivered |
| SabfsHost.Host.Pwrite | hw/9pfs/9p-sabfs.c:708-719 | EBADF when unavailable; EIO exactly for a negative result |
| SabfsHost.Host.Fstat | hw/9pfs/9p-sabfs.c:746-751 | always EBADF |
| SabfsHost.Host.Stat | hw/9pfs/9p-sabfs.c:721-744 | ENOENT when unavailable or unknown; otherwise the assembled stat record |
| SabfsHost.Host.PreadV | hw/9pfs/9p-sabfs.c:561-598 | EBADF for an unmapped descriptor; otherwise one pread of the total length, whose count is returned as it is, and whose first min(count, total) bytes are scattered in order over the buffers, each full before the next |
| SabfsHost.Host.PwriteV | hw/9pfs/9p-sabfs.c:600-632 | EBADF for an unmapped descriptor; otherwise one pwrite of exactly the gathered buffers |
| BackendPaths.NameToPath | hw/9pfs/9p-sabfs-backend.c:677-699 | no directory gives the name, "." the directory, ".." its parent, any other name dir + "/" + name; size counts the NUL |
| BackendPaths.ParentOfChild | hw/9pfs/9p-sabfs-backend.c:677-699 | walking to a plain child and then to ".." returns to the directory |
| BackendPaths.ChildPath | hw/9pfs/9p-sabfs-backend.c:466 | "%s/%s" into PATH_MAX bytes is a prefix of the joined path, and equals the name_to_path result whenever it fits |
| BackendFiles.OpenFile | hw/9pfs/9p-sabfs-backend.c:326-341 | one JavaScript open; ENOENT and no state on failure, otherwise a state with the descriptor and the truncated path |
| BackendFiles.Open2 | hw/9pfs/9p-sabfs-backend.c:549-567 | one open of dir/name with O_CREAT added and the given mode; the same success and failure cases |
| BackendFiles.Mknod | hw/9pfs/9p-sabfs-backend.c:461-475 | open with O_CREAT and O_TRUNC, then close of the new descriptor; EPERM if the open fails |
| BackendFiles.CloseFile | hw/9pfs/9p-sabfs-backend.c:305-314 | always 0; one close exactly when the fid has a state |
| BackendFiles.MakeDir | hw/9pfs/9p-sabfs-backend.c:477-483 | one mkdir of the joined path, whose answer is the result |
| BackendFiles.MakeSymlink | hw/9pfs/9p-sabfs-backend.c:569-575 | one symlink at the joined path, whose answer is the result |
| BackendFiles.MakeLink | hw/9pfs/9p-sabfs-backend.c:577-583 | one link at the joined path, whose answer is the result |
| BackendFiles.Renameat | hw/9pfs/9p-sabfs-backend.c:701-709 | one rename between the two joined paths, whose answer is the result |
| BackendFiles.Remove | hw/9pfs/9p-sabfs-backend.c:608-613 | unlink first and rmdir only if it fails; succeeds exactly when one of them does |
| BackendFiles.Unlinkat | hw/9pfs/9p-sabfs-backend.c:711-721 | exactly one request: rmdir exactly when AT_REMOVEDIR is set, unlink exactly when it is not |
| BackendFiles.UnlinkatIsRemoveFirstStep | hw/9pfs/9p-sabfs-backend.c:608-613 | unlinkat without AT_REMOVEDIR agrees with remove on the joined path when the unlink succeeds |
| BackendFiles.Readlink | hw/9pfs/9p-sabfs-backend.c:294-303 | EINVAL for no target or an empty one; otherwise the first min(length, bufsz) bytes of the target's UTF-8 encoding, and that byte count |
| BackendFiles.Init | hw/9pfs/9p-sabfs-backend.c:251-258 | 0 exactly when SABFS is available, -1 otherwise |
| BackendFiles.Fsync | hw/9pfs/9p-sabfs-backend.c:615-620 | always succeeds |
| BackendDir.DirentOf | hw/9pfs/9p-sabfs-backend.c:386-393 | the first min(length, 255) bytes of the name's UTF-8 encoding, the inode, and the type reduced to an unsigned char |
| BackendDir.DirState.constructor | hw/9pfs/9p-sabfs-backend.c:352-355 | the truncated path, the count, position 0 |
| BackendDir.Opendir | hw/9pfs/9p-sabfs-backend.c:343-359 | ENOENT and no state for a negative count; otherwise a fresh state at position 0 |
| BackendDir.Telldir | hw/9pfs/9p-sabfs-backend.c:371-375 | the position, 0 without a state |
| BackendDir.Readdir | hw/9pfs/9p-sabfs-backend.c:377-397 | an entry exactly when the position is below the count and the listing has one there; the position then moves by exactly one |
| BackendDir.Seekdir | hw/9pfs/9p-sabfs-backend.c:399-405 | telldir then reports the offset as an int |
| BackendDir.Rewinddir | hw/9pfs/9p-sabfs-backend.c:361-369 | position 0 and the refreshed count |
| BackendDir.Closedir | hw/9pfs/9p-sabfs-backend.c:316-324 | always 0 |
| BackendIo.Vectored | hw/9pfs/9p-sabfs-backend.c:416-429 | the loop's result is -1 only while nothing has moved, and never below the bytes already moved |
| BackendIo.Requests | hw/9pfs/9p-sabfs-backend.c:416-429 | at most one request per buffer left, the first for buffer i at the offset plus the running total |
| BackendIo.VectoredIsMoved | hw/9pfs/9p-sabfs-backend.c:416-429 | from buffer i on the loop returns the bytes already moved plus those the remaining requests move, or -1 when none moved at all |
| BackendIo.VectoredResult | hw/9pfs/9p-sabfs-backend.c:407-454 | a read or write returns the sum of the successful requests' counts, or -1 when nothing moved; a failing first request gives -1 |
| BackendIo.PreadvFailsOnlyOnFirst | hw/9pfs/9p-sabfs-backend.c:416-429 | a read fails as a whole exactly when its first request fails |
| BackendIo.VectoredBoundedFrom | hw/9pfs/9p-sabfs-backend.c:416-429 | from buffer i on at most the remaining lengths are added |
| BackendIo.VectoredBounded | hw/9pfs/9p-sabfs-backend.c:407-454 | a read or write returns between -1 and the vector's total length |
| BackendIo.RequestsLens | hw/9pfs/9p-sabfs-backend.c:416-429 | from buffer i on, request k is for buffer i + k |
| BackendIo.RequestsChained | hw/9pfs/9p-sabfs-backend.c:418-426 | every request but the last moved its whole buffer, and the next starts where it ended |
| BackendIo.RequestsInOrder | hw/9pfs/9p-sabfs-backend.c:416-429 | request k is for buffer k at the offset plus what the earlier requests moved, each of which was full |
| BackendIo.PreadV | hw/9pfs/9p-sabfs-backend.c:407-430 | EBADF without a state; otherwise the read loop's result and requests |
| BackendIo.PwriteV | hw/9pfs/9p-sabfs-backend.c:432-454 | EBADF without a state; otherwise the write loop's result and requests |
| BackendIo.TransferStep | hw/9pfs/9p-sabfs-backend.c:418-426 | one pass of the loop appends the request for buffer i, and either ends the request list or continues it from buffer i + 1 with the same final result |
| BackendIo.Transfer | hw/9pfs/9p-sabfs-backend.c:416-429 | the loop computes the result and request list of its specification |
| BackendAttrs.StatBufOf | hw/9pfs/9p-sabfs-backend.c:278-289 | every word copied, the size joined from its halves, a 4096-byte block size |
| BackendAttrs.StatBufSize | hw/9pfs/9p-sabfs-backend.c:38-40 | a size split by the JavaScript side is rebuilt exactly |
| BackendAttrs.Lstat | hw/9pfs/9p-sabfs-backend.c:265-292 | -1 with ENOENT exactly when the JavaScript lstat fails |
| BackendAttrs.Fstat | hw/9pfs/9p-sabfs-backend.c:485-547 | EBADF without a state; otherwise lstat's result for a stat of the state's path; 0 exactly when that succeeds |
| BackendAttrs.Statfs | hw/9pfs/9p-sabfs-backend.c:622-646 | always 0; type "SABF", names up to 255, bavail equal to bfree; counts from JavaScript or the defaults |
| BackendAttrs.Xattr | hw/9pfs/9p-sabfs-backend.c:648-675 | every xattr callback fails with ENOTSUP |
| GuestFds.LookupAsWritten | target/i386/tcg/sysemu/seg_helper.c:197-204 | the slot of a guest descriptor in [10000, 10256), -1 outside |
| GuestFds.Lookup | target/i386/tcg/sysemu/seg_helper.c:197-204 | -1 before initialisation, the slot after |
| GuestFds.UninitializedMapLooksMapped | target/i386/tcg/sysemu/seg_helper.c:171-204 | before the first allocation the lookup as written maps 10000 to SABFS descriptor 0 and the corrected one does not |
| GuestFds.AllocResult | target/i386/tcg/sysemu/seg_helper.c:185-195 | a descriptor exactly while the counter is below 10256, and then the counter's value; -1 after |
| GuestFds.Allocs | target/i386/tcg/sysemu/seg_helper.c:185-195 | a run of allocations returns one descriptor per call, moves the counter by the number of calls, and changes no descriptor it did not return |
| GuestFds.AllocsInOrder | target/i386/tcg/sysemu/seg_helper.c:185-195 | allocations hand out the counter, the counter + 1, … in order until 10256 and -1 after, each descriptor standing for the SABFS descriptor it was allocated for |
| GuestFds.InitTable | target/i386/tcg/sysemu/seg_helper.c:175-183 | afterwards initialised with the same counter, and every lookup unchanged |
| GuestFds.AllocTable | target/i386/tcg/sysemu/seg_helper.c:185-195 | the counter always rises by one; the descriptor returned is AllocResult and maps to the SABFS descriptor; no other lookup changes |
| GuestFds.FreeTable | target/i386/tcg/sysemu/seg_helper.c:206-212 | the descriptor maps to nothing afterwards; no other lookup, and not the counter, changes |
| GuestFds.GuestFdTable.State | target/i386/tcg/sysemu/seg_helper.c:170-173 | the table's slots, flag and counter as a well-formed value |
| GuestFds.GuestFdTable.constructor | target/i386/tcg/sysemu/seg_helper.c:170-173 | zero-filled slots, not initialised, the counter at 10000 |
| GuestFds.GuestFdTable.GetFdAsWritten | target/i386/tcg/sysemu/seg_helper.c:197-204 | agrees with GetFd once initialised; before that any in-range descriptor reads its slot, so a mapped but not live descriptor shows up only before the first open |
| GuestFds.GuestFdTable.GetFd | target/i386/tcg/sysemu/seg_helper.c:197-204 | the corrected lookup on the table's state: non-negative exactly for live guest descriptors; -1 outside the range |
| GuestFds.GuestFdTable.InitMap | target/i386/tcg/sysemu/seg_helper.c:175-183 | the new state is InitTable of the old one; the live set is unchanged |
| GuestFds.GuestFdTable.Alloc | target/i386/tcg/sysemu/seg_helper.c:185-195 | the new state and the result are AllocTable's; a returned descriptor was never live before and is live afterwards |
| GuestFds.GuestFdTable.Free | target/i386/tcg/sysemu/seg_helper.c:206-212 | the new state is FreeTable of the old one; the descriptor is no longer live |
| GuestMemory.ByteAt | target/i386/tcg/sysemu/seg_helper.c:233-239 | the byte at addr + i is the one loaded from every address congruent to it modulo 2^64 |
| GuestMemory.NulIndexFrom | target/i386/tcg/sysemu/seg_helper.c:221-225 | the first NUL at or after i before the limit, and no NUL before it |
| GuestMemory.GuestBytes | target/i386/tcg/sysemu/seg_helper.c:233-239 | len bytes, byte j loaded from address addr + j modulo 2^64 |
| GuestMemory.GuestString | target/i386/tcg/sysemu/seg_helper.c:218-228 | at most maxLen - 1 non-NUL guest bytes, ended by a NUL unless the limit was hit |
| GuestMemory.ReadGuestString | target/i386/tcg/sysemu/seg_helper.c:218-228 | the buffer holds GuestString followed by a NUL; bytes after it are untouched |
| GuestMemory.ReadGuestBuffer | target/i386/tcg/sysemu/seg_helper.c:233-239 | the copy is exactly GuestBytes |
| SyscallIntercept.BytesToString | target/i386/tcg/sysemu/seg_helper.c:294-295 | one character per byte of the path buffer |
| SyscallIntercept.GuestPath | target/i386/tcg/sysemu/seg_helper.c:294-295 | a C string of fewer than 512 characters |
| SyscallIntercept.RewritePath | target/i386/tcg/sysemu/seg_helper.c:298-304 | a path is rewritten exactly when it starts with "/mnt/pvfs/", to "/pack/" plus the rest, within 512 bytes |
| SyscallIntercept.ClampCount | target/i386/tcg/sysemu/seg_helper.c:322-329 | the int count, capped at 65536 |
| SyscallIntercept.Classify | target/i386/tcg/sysemu/seg_helper.c:290-477 | only the seven syscalls are served, each as its own operation (read, write, close, fstat, stat, and open or openat as an open); a descriptor call is served exactly when the descriptor is mapped; open and stat exactly for "/mnt/pvfs/" paths; openat with AT_FDCWD or an absolute path exactly for "/mnt/pvfs/" paths, and relative off another directory never; open's flags come from RSI and openat's from RDX; the read/write and stat/fstat buffer is RSI |
| SyscallIntercept.TableFds | target/i386/tcg/sysemu/seg_helper.c:197-204 | the lookup function of a guest descriptor table |
| SyscallIntercept.ReadBeforeFirstOpen | target/i386/tcg/sysemu/seg_helper.c:319-326 | before any open, a read of descriptor 10000 goes to SABFS descriptor 0 as written and to the kernel once corrected |
| SyscallIntercept.Perform | target/i386/tcg/sysemu/seg_helper.c:290-477 | a handled call's RAX and guest stores: -ENOENT, -EBADF, -ENOMEM for a zero count, abort for a negative count, otherwise the JavaScript result sign-extended; a read whose count exceeds the request is an overread that stores only the buffer's bytes |
| SyscallIntercept.PerformDescriptors | target/i386/tcg/sysemu/seg_helper.c:305-388 | a successful open maps the descriptor returned in RAX to the SABFS descriptor, a close unmaps its descriptor, and nothing else changes the table |
| SyscallIntercept.NextRip | target/i386/tcg/sysemu/seg_helper.c:315 | the resume address is eip + next_eip_addend reduced modulo 2^64 |
| SyscallIntercept.Interceptor.constructor | target/i386/tcg/sysemu/seg_helper.c:170-173 | an empty descriptor table, SABFS not yet seen available |
| SyscallIntercept.Interceptor.ReadPath | target/i386/tcg/sysemu/seg_helper.c:294-295 | the path read into a 512-byte buffer is GuestPath |
| SyscallIntercept.Interceptor.Decide | target/i386/tcg/sysemu/seg_helper.c:290-477 | the decision taken on the live table is Classify's |
| SyscallIntercept.Interceptor.Serve | target/i386/tcg/sysemu/seg_helper.c:305-473 | RAX, the stores and the new descriptor table as Perform says, also for an overread; RIP, RCX and the argument registers unchanged |
| SyscallIntercept.Interceptor.Intercept | target/i386/tcg/sysemu/seg_helper.c:290-477 | not handled exactly when Classify says kernel, and then nothing changes; otherwise Perform's effect, with RIP and RCX past the SYSCALL when handled or overread |
| SyscallIntercept.Interceptor.TryIntercept | target/i386/tcg/sysemu/seg_helper.c:259-478 | not handled outside long mode, before SABFS is available, or when Classify says kernel, and then nothing changes; otherwise Perform's effect, the guest resuming past the SYSCALL unless aborted; the availability flag is sticky |
| CheckIo.LowBits | target/i386/tcg/sysemu/seg_helper.c:676-678 | val & ((1 << n) - 1) is below 2^n |
| CheckIo.LowBitsShr | target/i386/tcg/sysemu/seg_helper.c:675-678 | the low n bits plus 2^n times x >> n give x back |
| CheckIo.ShrIsDiv | target/i386/tcg/sysemu/seg_helper.c:675-678 | x >> n is x / 2^n and x & ((1 << n) - 1) is x % 2^n |
| CheckIo.TssValid | target/i386/tcg/sysemu/seg_helper.c:662-667 | the TSS is valid exactly when flag bit 15 is set, flag bits 8 to 11 say 9, and the limit is at least 103 |
| CheckIo.IoPermitted | target/i386/tcg/sysemu/seg_helper.c:657-682 | the access is allowed exactly when the TSS is valid, both map bytes lie within its limit, and the size bits of the shifted map word are each clear |
| CheckIo.IoOffset | target/i386/tcg/sysemu/seg_helper.c:669-671 | base + addr / 8 + 1 never wraps a uint32_t |
| CheckIo.LowBitsZeroIffBitsClear | target/i386/tcg/sysemu/seg_helper.c:676-678 | x & ((1 << n) - 1) is 0 exactly when bits 0..n-1 of x are clear |
| CheckIo.ShrShr | target/i386/tcg/sysemu/seg_helper.c:675 | two right shifts add up |
| CheckIo.LowPartBit | target/i386/tcg/sysemu/seg_helper.c:674 | the low bits of a little-endian word are those of its low byte |
| CheckIo.HighPart | target/i386/tcg/sysemu/seg_helper.c:674 | shifting a word right by 8 leaves its high byte |
| CheckIo.ShiftedWordBit | target/i386/tcg/sysemu/seg_helper.c:674-675 | bit c of the shifted word is a bit of the low or of the high byte |
| CheckIo.WordBitIsPortBit | target/i386/tcg/sysemu/seg_helper.c:668-675 | bit c of the shifted map word is the permission bit of port addr + c |
| CheckIo.IoPermittedIffPortsPermitted | target/i386/tcg/sysemu/seg_helper.c:657-682 | the check allows an access of up to nine ports exactly when the TSS is valid, both map bytes lie within it, and every port's permission bit is clear |

## Left out

- The JavaScript side is outside the model. This covers the EM_JS bodies,
  sabfs/sabfs_qemu.c, sabfs/sabfs_qemu.h and sabfs/serve.py. Each JavaScript
  call is an oracle, and only its result is modelled.
- BackendDir.DirentOf and BackendFiles.Readlink take the JavaScript
  side's answer as the bytes of its UTF-8 encoding, as TextEncoder produces
  them; the encoding itself is part of the JavaScript side and is not
  modelled.
- The backend's chmod, chown, truncate, rename and utimensat are not
  modelled. Each is a single JavaScript pass-through. Truncate and utimensat
  also pass their values as doubles, and floating point is not modelled.
- sabfs_cleanup is not modelled: it has no observable effect.
- helper_syscall is outside the interceptor: it only calls it. The guest
  kernel entry after an unhandled call is not modelled either.
- The `debug_count` logging in the interceptor, and all fprintf and
  log output, are not modelled.
- A failure of g_malloc is only modelled for a count of zero, where its NULL
  result is certain.
- Perform: a count that is negative as an int makes g_malloc abort. This is
  the Aborted outcome; what happens to the emulator after that is not
  modelled.
- write_guest_buffer is modelled as Store records, and the effect of a store
  on later loads is not modelled.
- SyscallIntercept.Perform: a read whose JavaScript count n exceeds the
  count asked for makes write_guest_buffer copy n bytes out of a heap
  buffer of count bytes. This is the Overread outcome. Its store holds only
  the count bytes of the buffer; the heap bytes past its end are not
  modelled.
- SyscallIntercept.JsOk, SabfsHost.Host.Pread and SabfsHost.Host.PreadV
  trust the JavaScript side in one respect only: the buffer it is handed is
  a view of exactly the count bytes asked for, so that is what it holds
  afterwards. The count it returns is not bounded.
- BackendIo.VectoredBounded holds only for JavaScript answers of at most
  the length asked for, which the C code does not check; without that
  hypothesis VectoredResult still ties the result to the answers.
- Guest-memory faults are not modelled. cpu_ldub_data and cpu_stb_data
  (seg_helper.c lines 222, 237 and 248) raise a page fault on an unmapped
  guest address, part-way through a read_guest_string, read_guest_buffer or
  write_guest_buffer. In the model `load` is total and Perform reports
  Handled with its stores, even when the guest address would fault after
  the JavaScript call has already been made.
- CheckIo: the two cpu_lduw_kernel_ra loads of helper_check_io (lines 668
  and 673) can fault as well. The model reads the TSS through a total
  `tss`, so such a fault is not distinguished from the #GP of the check.
- Serve: when the JavaScript open succeeds but the guest descriptor table is
  full, the SABFS descriptor stays open and is never closed. The model shows
  this as an AllocResult of -1 and does not track the leaked descriptor.
- GuestFds: sabfs_next_guest_fd is an int that rises on every successful
  open; the model's counter is unbounded, so its wrap-around after 2^31
  opens is not modelled. Every open after the 256th returns -1 anyway.
- ElfCache.Cache.Lseek computes the SEEK_CUR and SEEK_END targets
  (9p-sabfs.c lines 296 and 299) on unbounded integers, so an off_t
  overflow of the offset plus the argument is not modelled.
- ElfCache.Cache.Pread and ElfCache.Cache.PreadV require a non-negative
  offset. The C code does not check it, and a negative offset reads outside
  the buffer.
- BackendIo.PreadV and BackendIo.PwriteV model each buffer by its length.
  The bytes the JavaScript side reads or writes are not modelled. The
  off_t sum of offset and total is not checked for overflow, and neither is
  the ssize_t total.
- CheckIo.IoPermittedIffPortsPermitted is proved only for sizes up to 9: the
  largest I/O access is 4 ports. Beyond 9 the 16-bit word the check loads
  cannot hold the bits.
- CheckIo models the bit operators as arithmetic on non-negative integers,
  and the two TSS loads as bytes at offsets from TR.base. The fault itself,
  raise_exception_err, is the predicate being false.
- SabfsHost.Host.PreadV and SabfsHost.Host.PwriteV model the iovec buffers
  as sequences. The malloc of the linear buffer (9p-sabfs.c lines 576 and
  615) is assumed to succeed; its ENOMEM branch is not modelled.

## Findings

| source | as written | input that shows it | evidently intended | confidence | as-written member | corrected member |
|---|---|---|---|---|---|---|
| hw/9pfs/9p-sabfs.c:214-225 | elf_cache_open uses slot next_fd - 30000 without checking that it is free, as long as the counter is below 30256 | 256 opens, close 30000, open (reuses slot 0, counter 30001), open again: slot 1 is taken while descriptor 30001 is open | pick the counter's slot only when it is free, otherwise the first free slot, and fail when none is | high (not executed) | ElfCache.OpenAsWrittenClobbersOpenFd | ElfCache.ChooseFdSlot |
| target/i386/tcg/sysemu/seg_helper.c:171-204 | sabfs_get_fd reads sabfs_fd_map before sabfs_init_fd_map has set it to -1, so the static zeros map every guest descriptor 10000..10255 to SABFS descriptor 0 | read(10000, buf, n) before any /mnt/pvfs file has been opened is served by SABFS descriptor 0 instead of the kernel | treat the table as empty until it is initialised | high (not executed) | SyscallIntercept.ReadBeforeFirstOpen | GuestFds.GuestFdTable.GetFd |
