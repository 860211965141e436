/**
 * Vectored I/O in the 9p SABFS backend (hw/9pfs/9p-sabfs-backend.c):
 * sabfs_preadv and sabfs_pwritev issue one JavaScript request per buffer,
 * each at the offset plus what has been transferred so far, and stop early
 * on an error, a short transfer, or (for reads) end of file.
 *
 * A vector is modelled by its buffer lengths; `io(fd, len, off)` is the
 * count the JavaScript side answers for a request of `len` bytes at `off`.
 */
module BackendIo {
  import opened CTypes
  import opened IoVec
  import opened BackendFiles

  /** One request the loop makes: the buffer's length and the file offset. */
  datatype Request = Request(len: nat, offset: int)

  /**
   * The running-total loop from buffer i on, `total` bytes already done.
   * A failure returns -1 if nothing was transferred yet and the total
   * otherwise; a zero-byte read ends a read (`zeroStops`); a short transfer
   * is counted and ends the loop. The result is -1 only while nothing has
   * been transferred, and otherwise never below what already has.
   */
  function Vectored(fd: int, lens: seq<nat>, offset: int, io: (int, nat, int) -> int,
                    zeroStops: bool, i: nat, total: int): (r: int)
    ensures total >= 0 ==> (r == -1 && total == 0) || r >= total
    decreases |lens| - i
  {
    if i >= |lens| then total
    else
      var ret := io(fd, lens[i], offset + total);
      if ret < 0 then (if total == 0 then -1 else total)
      else if zeroStops && ret == 0 then total
      else if ret < lens[i] then total + ret
      else Vectored(fd, lens, offset, io, zeroStops, i + 1, total + ret)
  }

  /**
   * The requests the loop from buffer i on makes, in order: at most one
   * per buffer left, the first for buffer i at the offset plus the total.
   */
  function Requests(fd: int, lens: seq<nat>, offset: int, io: (int, nat, int) -> int,
                    zeroStops: bool, i: nat, total: int): (rs: seq<Request>)
    ensures i >= |lens| ==> rs == []
    ensures i < |lens| ==> 1 <= |rs| <= |lens| - i && rs[0] == Request(lens[i], offset + total)
    decreases |lens| - i
  {
    if i >= |lens| then []
    else
      var ret := io(fd, lens[i], offset + total);
      if ret < 0 || (zeroStops && ret == 0) || ret < lens[i] then [Request(lens[i], offset + total)]
      else [Request(lens[i], offset + total)] + Requests(fd, lens, offset, io, zeroStops, i + 1, total + ret)
  }

  /** A read fails as a whole exactly when its first request fails. */
  lemma PreadvFailsOnlyOnFirst(fd: int, lens: seq<nat>, offset: int, io: (int, nat, int) -> int)
    ensures Vectored(fd, lens, offset, io, true, 0, 0) == -1 <==> |lens| > 0 && io(fd, lens[0], offset) < 0
  {
  }

  /**
   * When the JavaScript side never reports more than it was asked for,
   * the loop from buffer i on adds at most the lengths of the buffers left.
   */
  lemma {:induction false} VectoredBoundedFrom(fd: int, lens: seq<nat>, offset: int, io: (int, nat, int) -> int,
                                               zeroStops: bool, i: nat, total: int)
    requires i <= |lens| && total >= 0
    requires forall f, n, o :: io(f, n, o) <= n
    ensures Vectored(fd, lens, offset, io, zeroStops, i, total) <= total + Sum(lens) - Sum(lens[..i])
    decreases |lens| - i
  {
    SumPrefix(lens, i);
    if i < |lens| {
      var ret := io(fd, lens[i], offset + total);
      assert lens[..i + 1] == lens[..i] + [lens[i]];
      SumAppend(lens[..i], lens[i]);
      SumPrefix(lens, i + 1);
      if ret >= 0 && !(zeroStops && ret == 0) && ret >= lens[i] {
        VectoredBoundedFrom(fd, lens, offset, io, zeroStops, i + 1, total + ret);
      }
    }
  }

  /** Under the same condition a whole read or write transfers at most the vector's total length. */
  lemma VectoredBounded(fd: int, lens: seq<nat>, offset: int, io: (int, nat, int) -> int, zeroStops: bool)
    requires forall f, n, o :: io(f, n, o) <= n
    ensures -1 <= Vectored(fd, lens, offset, io, zeroStops, 0, 0) <= Sum(lens)
  {
    VectoredBoundedFrom(fd, lens, offset, io, zeroStops, 0, 0);
  }

  /**
   * Each request but the last moved its whole buffer, and the next one
   * starts where it ended.
   */
  ghost predicate Chained(fd: int, io: (int, nat, int) -> int, rs: seq<Request>)
  {
    forall k :: 0 <= k < |rs| - 1 ==>
      io(fd, rs[k].len, rs[k].offset) >= rs[k].len
      && rs[k + 1].offset == rs[k].offset + io(fd, rs[k].len, rs[k].offset)
  }

  lemma ChainedCons(fd: int, io: (int, nat, int) -> int, r0: Request, rest: seq<Request>)
    requires Chained(fd, io, rest)
    requires rest != [] ==>
      io(fd, r0.len, r0.offset) >= r0.len && rest[0].offset == r0.offset + io(fd, r0.len, r0.offset)
    ensures Chained(fd, io, [r0] + rest)
  {
    var rs := [r0] + rest;
    forall k | 1 <= k < |rs| - 1
      ensures io(fd, rs[k].len, rs[k].offset) >= rs[k].len
        && rs[k + 1].offset == rs[k].offset + io(fd, rs[k].len, rs[k].offset)
    {
      assert rs[k] == rest[k - 1] && rs[k + 1] == rest[k];
    }
  }

  /** Request k is for buffer i + k. */
  lemma {:induction false} RequestsLens(fd: int, lens: seq<nat>, offset: int, io: (int, nat, int) -> int,
                                        zeroStops: bool, i: nat, total: int)
    ensures forall k :: 0 <= k < |Requests(fd, lens, offset, io, zeroStops, i, total)| ==>
      Requests(fd, lens, offset, io, zeroStops, i, total)[k].len == lens[i + k]
    decreases |lens| - i
  {
    if i < |lens| {
      var ret := io(fd, lens[i], offset + total);
      if !(ret < 0 || (zeroStops && ret == 0) || ret < lens[i]) {
        RequestsLens(fd, lens, offset, io, zeroStops, i + 1, total + ret);
        var rest := Requests(fd, lens, offset, io, zeroStops, i + 1, total + ret);
        var rs := Requests(fd, lens, offset, io, zeroStops, i, total);
        assert rs == [Request(lens[i], offset + total)] + rest;
        forall k | 1 <= k < |rs|
          ensures rs[k].len == lens[i + k]
        {
          assert rs[k] == rest[k - 1];
        }
      }
    }
  }

  /** Every request but the last moved its whole buffer, and the next starts where it ended. */
  lemma {:induction false} RequestsChained(fd: int, lens: seq<nat>, offset: int, io: (int, nat, int) -> int,
                                           zeroStops: bool, i: nat, total: int)
    ensures Chained(fd, io, Requests(fd, lens, offset, io, zeroStops, i, total))
    decreases |lens| - i
  {
    if i < |lens| {
      var ret := io(fd, lens[i], offset + total);
      if !(ret < 0 || (zeroStops && ret == 0) || ret < lens[i]) {
        RequestsChained(fd, lens, offset, io, zeroStops, i + 1, total + ret);
        var rest := Requests(fd, lens, offset, io, zeroStops, i + 1, total + ret);
        ChainedCons(fd, io, Request(lens[i], offset + total), rest);
      }
    }
  }

  /**
   * Request k reads or writes buffer k at the starting offset plus the
   * counts of the requests before it, each of which moved its whole buffer.
   */
  lemma RequestsInOrder(fd: int, lens: seq<nat>, offset: int, io: (int, nat, int) -> int, zeroStops: bool)
    ensures var rs := Requests(fd, lens, offset, io, zeroStops, 0, 0);
      && (forall k :: 0 <= k < |rs| ==> rs[k].len == lens[k])
      && Chained(fd, io, rs)
  {
    RequestsLens(fd, lens, offset, io, zeroStops, 0, 0);
    RequestsChained(fd, lens, offset, io, zeroStops, 0, 0);
  }

  /** The bytes the requests `rs` moved: the sum of their non-negative answers. */
  function Moved(fd: int, io: (int, nat, int) -> int, rs: seq<Request>): int
  {
    if rs == [] then 0
    else
      var ret := io(fd, rs[0].len, rs[0].offset);
      (if ret < 0 then 0 else ret) + Moved(fd, io, rs[1..])
  }

  /**
   * The loop returns what it had before buffer i plus exactly the bytes
   * the requests it makes from there on moved, a failed request moving
   * nothing; or -1, and then nothing had moved at all.
   */
  lemma {:induction false} VectoredIsMoved(fd: int, lens: seq<nat>, offset: int, io: (int, nat, int) -> int,
                                           zeroStops: bool, i: nat, total: int)
    requires total >= 0
    ensures var r := Vectored(fd, lens, offset, io, zeroStops, i, total);
      var moved := Moved(fd, io, Requests(fd, lens, offset, io, zeroStops, i, total));
      && (r != -1 ==> r == total + moved)
      && (r == -1 ==> total == 0 && moved == 0)
    decreases |lens| - i
  {
    if i < |lens| {
      var ret := io(fd, lens[i], offset + total);
      var r0 := Request(lens[i], offset + total);
      var rs := Requests(fd, lens, offset, io, zeroStops, i, total);
      if ret < 0 || (zeroStops && ret == 0) || ret < lens[i] {
        assert rs == [r0] && rs[1..] == [];
      } else {
        var rest := Requests(fd, lens, offset, io, zeroStops, i + 1, total + ret);
        assert rs == [r0] + rest && rs[1..] == rest;
        VectoredIsMoved(fd, lens, offset, io, zeroStops, i + 1, total + ret);
      }
    }
  }

  /**
   * A whole read or write returns the sum of the counts its requests
   * moved, or -1 when nothing moved and a request failed; a failing
   * first request always gives -1.
   */
  lemma VectoredResult(fd: int, lens: seq<nat>, offset: int, io: (int, nat, int) -> int, zeroStops: bool)
    ensures var r := Vectored(fd, lens, offset, io, zeroStops, 0, 0);
      var moved := Moved(fd, io, Requests(fd, lens, offset, io, zeroStops, 0, 0));
      && (r != -1 ==> r == moved)
      && (r == -1 ==> moved == 0)
      && (|lens| > 0 && io(fd, lens[0], offset) < 0 ==> r == -1)
  {
    VectoredIsMoved(fd, lens, offset, io, zeroStops, 0, 0);
  }

  /**
   * sabfs_preadv: EBADF without an open state; otherwise the loop above
   * with reads, which stop at end of file.
   */
  method PreadV(state: Option<FileState>, lens: seq<nat>, offset: int, io: (int, nat, int) -> int)
    returns (r: int, errno: Option<Errno>, reqs: seq<Request>)
    ensures state.None? ==> r == -1 && errno == Some(EBADF) && reqs == []
    ensures state.Some? ==>
      && errno == None
      && r == Vectored(state.value.fd, lens, offset, io, true, 0, 0)
      && reqs == Requests(state.value.fd, lens, offset, io, true, 0, 0)
  {
    if state.None? {
      return -1, Some(EBADF), [];
    }
    r, reqs := Transfer(state.value.fd, lens, offset, io, true);
    errno := None;
  }

  /**
   * sabfs_pwritev: EBADF without an open state; otherwise the loop above
   * with writes, which go on past a zero-byte write of an empty buffer.
   */
  method PwriteV(state: Option<FileState>, lens: seq<nat>, offset: int, io: (int, nat, int) -> int)
    returns (r: int, errno: Option<Errno>, reqs: seq<Request>)
    ensures state.None? ==> r == -1 && errno == Some(EBADF) && reqs == []
    ensures state.Some? ==>
      && errno == None
      && r == Vectored(state.value.fd, lens, offset, io, false, 0, 0)
      && reqs == Requests(state.value.fd, lens, offset, io, false, 0, 0)
  {
    if state.None? {
      return -1, Some(EBADF), [];
    }
    r, reqs := Transfer(state.value.fd, lens, offset, io, false);
    errno := None;
  }

  /**
   * One round of the loop: the request for buffer i is the first of the
   * remaining ones, and when the loop goes on the rest starts at buffer
   * i + 1 with the new total, with the same final result.
   */
  lemma TransferStep(fd: int, lens: seq<nat>, offset: int, io: (int, nat, int) -> int,
                     zeroStops: bool, i: nat, total: int, reqs: seq<Request>)
    requires i < |lens|
    ensures var ret := io(fd, lens[i], offset + total);
      var done := reqs + [Request(lens[i], offset + total)];
      if ret < 0 || (zeroStops && ret == 0) || ret < lens[i] then
        done == reqs + Requests(fd, lens, offset, io, zeroStops, i, total)
      else
        && done + Requests(fd, lens, offset, io, zeroStops, i + 1, total + ret)
           == reqs + Requests(fd, lens, offset, io, zeroStops, i, total)
        && Vectored(fd, lens, offset, io, zeroStops, i + 1, total + ret)
           == Vectored(fd, lens, offset, io, zeroStops, i, total)
  {
    var ret := io(fd, lens[i], offset + total);
    var req := Request(lens[i], offset + total);
    if !(ret < 0 || (zeroStops && ret == 0) || ret < lens[i]) {
      var rest := Requests(fd, lens, offset, io, zeroStops, i + 1, total + ret);
      assert Requests(fd, lens, offset, io, zeroStops, i, total) == [req] + rest;
      assert (reqs + [req]) + rest == reqs + ([req] + rest);
    }
  }

  /** The loop both callbacks share: one request per buffer with a running total. */
  method Transfer(fd: int, lens: seq<nat>, offset: int, io: (int, nat, int) -> int, zeroStops: bool)
    returns (r: int, reqs: seq<Request>)
    ensures r == Vectored(fd, lens, offset, io, zeroStops, 0, 0)
    ensures reqs == Requests(fd, lens, offset, io, zeroStops, 0, 0)
  {
    var total := 0;
    reqs := [];
    var i := 0;
    while i < |lens|
      invariant 0 <= i <= |lens|
      invariant Vectored(fd, lens, offset, io, zeroStops, i, total) == Vectored(fd, lens, offset, io, zeroStops, 0, 0)
      invariant reqs + Requests(fd, lens, offset, io, zeroStops, i, total) == Requests(fd, lens, offset, io, zeroStops, 0, 0)
    {
      var ret := io(fd, lens[i], offset + total);
      TransferStep(fd, lens, offset, io, zeroStops, i, total, reqs);
      reqs := reqs + [Request(lens[i], offset + total)];
      if ret < 0 {
        if total == 0 {
          return -1, reqs;
        }
        break;
      }
      if zeroStops && ret == 0 {
        break;
      }
      total := total + ret;
      if ret < lens[i] {
        break;
      }
      i := i + 1;
    }
    r := total;
  }
}
