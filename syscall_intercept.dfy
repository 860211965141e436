/**
 * The SABFS syscall interceptor of target/i386/tcg/sysemu/seg_helper.c
 * (sabfs_try_intercept): before a 64-bit guest's SYSCALL enters the guest
 * kernel, read, write, open, close, stat, fstat and openat on files under
 * "/mnt/pvfs/" are served from SABFS instead, and the guest resumes at
 * the instruction after the SYSCALL.
 *
 * The decision is the pure function Classify; what a handled call does is
 * Perform; TryIntercept carries both out on the CPU registers and the
 * guest descriptor table. Guest memory is read through `load`; the bytes
 * written back to the guest are returned as Store records. The JavaScript
 * SABFS object is the oracle `js`.
 */
module SyscallIntercept {
  import opened CTypes
  import opened CStrings
  import opened GuestFds
  import opened GuestMemory
  import SabfsHost

  /** x86-64 Linux syscall numbers the interceptor knows. */
  const SYS_read := 0
  const SYS_write := 1
  const SYS_open := 2
  const SYS_close := 3
  const SYS_stat := 4
  const SYS_fstat := 5
  const SYS_openat := 257
  const AT_FDCWD := -100

  /** The size of the path buffers. */
  const PathBuf := 512
  /** The largest count a read or write passes on. */
  const MaxCount := 65536
  /** The size of the stat record the JavaScript side fills in. */
  const StatBufLen := 144

  const MntPrefix := "/mnt/pvfs/"
  const PackPrefix := "/pack/"

  /** The characters of a byte string, one per byte. */
  function BytesToString(bs: seq<byte>): (s: string)
    ensures |s| == |bs|
    ensures forall j :: 0 <= j < |bs| ==> s[j] == (bs[j] as int) as char
  {
    seq(|bs|, j requires 0 <= j < |bs| => (bs[j] as int) as char)
  }

  /** The path argument at guest address `addr`, as read into a 512-byte buffer. */
  function GuestPath(load: int -> byte, addr: int): (p: string)
    ensures |p| < PathBuf && IsCString(p)
  {
    var bs := GuestString(load, addr, PathBuf);
    var p := BytesToString(bs);
    assert forall j :: 0 <= j < |p| ==> p[j] != NUL by {
      forall j | 0 <= j < |p|
        ensures p[j] != NUL
      {
        assert bs[j] != 0;
      }
    }
    p
  }

  /**
   * The filter and rewrite for path syscalls: only a path that starts with
   * the ten bytes "/mnt/pvfs/" is served, as "/pack/" followed by the rest.
   * The rewritten path always fits the 512-byte buffer it is formatted into.
   */
  function RewritePath(path: string): (p: Option<string>)
    requires |path| < PathBuf && IsCString(path)
    ensures p.Some? <==> HasPrefix(path, MntPrefix)
    ensures p.Some? ==> p.value == PackPrefix + path[|MntPrefix|..] && |p.value| < PathBuf
  {
    StrNCmpIsPrefix(path, MntPrefix);
    if StrNEq(path, MntPrefix, 10) then Some(Truncated(PackPrefix + path[10..], PathBuf)) else None
  }

  /** The count a read or write passes on: the int in RDX, at most 65536. */
  function ClampCount(rdx: int): (c: int)
    ensures c <= MaxCount && IsI32(c)
    ensures c == I32(rdx) || (c == MaxCount && I32(rdx) > MaxCount)
  {
    var c := I32(rdx);
    if c > MaxCount then MaxCount else c
  }

  /** What the interceptor decides to do with one syscall. */
  datatype Action =
    | Kernel
    | OpenFile(path: string, flags: int)
    | ReadFd(sabfsFd: int, buf: int, count: int)
    | WriteFd(sabfsFd: int, buf: int, count: int)
    | CloseFd(guestFd: int, sabfsFd: int)
    | StatPath(path: string, buf: int)
    | FstatFd(sabfsFd: int, buf: int)

  /** The syscalls that name a guest descriptor in their first argument. */
  predicate IsFdSyscall(nr: int)
  {
    nr == SYS_read || nr == SYS_write || nr == SYS_close || nr == SYS_fstat
  }

  /**
   * The decision for syscall `nr` with arguments RDI, RSI and RDX, when
   * guest descriptor g stands for SABFS descriptor `fdOf(g)` (negative when
   * none). Descriptor syscalls go to SABFS only for a mapped descriptor;
   * path syscalls only for a "/mnt/pvfs/" path, and openat only with
   * AT_FDCWD or an absolute path; every other syscall goes to the kernel.
   */
  function Classify(nr: int, rdi: int, rsi: int, rdx: int, load: int -> byte, fdOf: int -> int): (a: Action)
    ensures !a.Kernel? ==> nr in {SYS_read, SYS_write, SYS_open, SYS_close, SYS_stat, SYS_fstat, SYS_openat}
    ensures IsFdSyscall(nr) ==> (a.Kernel? <==> fdOf(I32(rdi)) < 0)
    ensures a.ReadFd? || a.WriteFd? ==> a.count == ClampCount(rdx) && a.count <= MaxCount && a.buf == rsi
    ensures a.ReadFd? || a.WriteFd? || a.CloseFd? || a.FstatFd? ==> a.sabfsFd == fdOf(I32(rdi)) >= 0
    ensures !a.Kernel? ==>
      && (a.ReadFd? <==> nr == SYS_read) && (a.WriteFd? <==> nr == SYS_write)
      && (a.CloseFd? <==> nr == SYS_close) && (a.FstatFd? <==> nr == SYS_fstat)
      && (a.StatPath? <==> nr == SYS_stat) && (a.OpenFile? <==> nr == SYS_open || nr == SYS_openat)
    ensures a.CloseFd? ==> a.guestFd == I32(rdi)
    ensures a.OpenFile? ==> a.flags == I32(if nr == SYS_openat then rdx else rsi)
    ensures a.StatPath? || a.FstatFd? ==> a.buf == rsi
    ensures nr == SYS_openat && I32(rdi) != AT_FDCWD && CharAt(GuestPath(load, rsi), 0) != '/' ==> a.Kernel?
    ensures nr == SYS_openat && (I32(rdi) == AT_FDCWD || CharAt(GuestPath(load, rsi), 0) == '/') ==>
      (a.Kernel? <==> !HasPrefix(GuestPath(load, rsi), MntPrefix))
    ensures a.OpenFile? || a.StatPath? ==>
      var src := GuestPath(load, if nr == SYS_openat then rsi else rdi);
      && HasPrefix(src, MntPrefix) && a.path == PackPrefix + src[|MntPrefix|..] && |a.path| < PathBuf
    ensures (nr == SYS_open || nr == SYS_stat) ==> (a.Kernel? <==> !HasPrefix(GuestPath(load, rdi), MntPrefix))
  {
    if nr == SYS_open || nr == SYS_stat then
      match RewritePath(GuestPath(load, rdi))
      case None => Kernel
      case Some(p) => if nr == SYS_open then OpenFile(p, I32(rsi)) else StatPath(p, rsi)
    else if nr == SYS_openat then
      var path := GuestPath(load, rsi);
      if I32(rdi) != AT_FDCWD && CharAt(path, 0) != '/' then Kernel
      else
        match RewritePath(path)
        case None => Kernel
        case Some(p) => OpenFile(p, I32(rdx))
    else if IsFdSyscall(nr) then
      var g := I32(rdi);
      var s := fdOf(g);
      if s < 0 then Kernel
      else if nr == SYS_read then ReadFd(s, rsi, ClampCount(rdx))
      else if nr == SYS_write then WriteFd(s, rsi, ClampCount(rdx))
      else if nr == SYS_close then CloseFd(g, s)
      else FstatFd(s, rsi)
    else Kernel
  }

  /** The descriptor map of a guest descriptor table: the lookup of each guest descriptor. */
  function TableFds(t: Table): (fdOf: int -> int)
    requires t.Wf()
    ensures forall g :: fdOf(g) == Lookup(t.slots, t.initialized, g)
  {
    g => t.Fd(g)
  }

  /**
   * Before any SABFS file has been opened, a read of guest descriptor
   * 10000 goes to SABFS descriptor 0 with the lookup as written, and to the
   * kernel with the corrected one.
   */
  lemma ReadBeforeFirstOpen(buf: int, count: int, load: int -> byte)
    requires 0 < count <= MaxCount
    ensures var zeros := seq(MaxFds, _ => 0);
      && Classify(SYS_read, FdBase, buf, count, load, g => LookupAsWritten(zeros, g)) == ReadFd(0, buf, count)
      && Classify(SYS_read, FdBase, buf, count, load, g => Lookup(zeros, false, g)) == Kernel
  {
    UninitializedMapLooksMapped();
  }

  /** The JavaScript calls the interceptor makes. */
  datatype Js = Js(
    available: bool,
    open: (string, int) -> int,
    close: int -> int,
    read: (int, nat) -> SabfsHost.ReadReply,
    write: (int, seq<byte>) -> int,
    stat: string -> Option<seq<byte>>,
    fstat: int -> Option<seq<byte>>)

  /**
   * The buffers the JavaScript side is handed are views of fixed size: a
   * read's buffer holds the `count` bytes asked for, a stat record 144
   * bytes. The count a read returns is not bounded.
   */
  ghost predicate JsOk(js: Js)
  {
    && (forall f, c :: SabfsHost.ReplyFits(js.read(f, c), c))
    && (forall p :: js.stat(p).Some? ==> |js.stat(p).value| == StatBufLen)
    && (forall f :: js.fstat(f).Some? ==> |js.fstat(f).value| == StatBufLen)
  }

  /** Bytes written to guest memory at `addr`. */
  datatype Store = Store(addr: int, bytes: seq<byte>)

  /**
   * How a syscall ends: handed to the kernel; answered from SABFS; answered
   * from a read whose JavaScript count exceeds the bytes asked for, so
   * that write_guest_buffer copies that many bytes out of a buffer of
   * `count` bytes, past its end; or, for a count that is negative as an
   * int, stopped by g_malloc's abort.
   */
  datatype Outcome = NotHandled | Handled | Overread | Aborted
  {
    /** The guest resumes after the SYSCALL with a result in RAX. */
    predicate Resumes() { Handled? || Overread? }
  }

  /** What a syscall does: its outcome, RAX, the guest stores and the guest descriptor table afterwards. */
  datatype Effect = Effect(outcome: Outcome, rax: int, stores: seq<Store>, table: Table)

  /**
   * The result in RAX and the stores of a handled syscall. Failures are
   * -ENOENT for open and stat and -EBADF for fstat; a zero count gets
   * -ENOMEM, because g_malloc(0) returns NULL; every other result is the
   * JavaScript call's, sign-extended to 64 bits.
   */
  function Perform(a: Action, js: Js, load: int -> byte, t: Table): (e: Effect)
    requires !a.Kernel?
    requires JsOk(js) && t.Wf()
    ensures e.table.Wf()
    ensures e.outcome != NotHandled
    ensures e.outcome == Aborted <==> (a.ReadFd? || a.WriteFd?) && a.count < 0
    ensures e.outcome == Overread <==> a.ReadFd? && a.count > 0 && js.read(a.sabfsFd, a.count).n > a.count
    ensures e.outcome.Resumes() ==> IsU64(e.rax)
    ensures a.ReadFd? && a.count > 0 ==>
      var rep := js.read(a.sabfsFd, a.count);
      && e.rax == U64(rep.n)
      && e.stores == (if rep.n > 0 then [Store(a.buf, rep.bytes[..Min(rep.n, a.count)])] else [])
    ensures a.WriteFd? && a.count > 0 ==>
      e.rax == U64(js.write(a.sabfsFd, GuestBytes(load, a.buf, a.count))) && e.stores == []
    ensures (a.ReadFd? || a.WriteFd?) && a.count == 0 ==> e.rax == U64(-12) && e.stores == []
    ensures a.OpenFile? ==>
      e.stores == [] && e.rax == U64(if js.open(a.path, a.flags) < 0 then -2 else AllocResult(t.next))
    ensures a.StatPath? ==>
      if js.stat(a.path).Some? then e.rax == 0 && e.stores == [Store(a.buf, js.stat(a.path).value)]
      else e.rax == U64(-2) && e.stores == []
    ensures a.FstatFd? ==>
      if js.fstat(a.sabfsFd).Some? then e.rax == 0 && e.stores == [Store(a.buf, js.fstat(a.sabfsFd).value)]
      else e.rax == U64(-9) && e.stores == []
    ensures a.CloseFd? ==> e.rax == U64(js.close(a.sabfsFd)) && e.stores == []
  {
    match a
    case OpenFile(p, flags) =>
      var s := js.open(p, flags);
      if s < 0 then Effect(Handled, U64(-2), [], t)
      else
        var (t', g) := AllocTable(t, s);
        Effect(Handled, U64(g), [], t')
    case ReadFd(s, buf, count) =>
      if count < 0 then Effect(Aborted, 0, [], t)
      else if count == 0 then Effect(Handled, U64(-12), [], t)
      else
        var rep := js.read(s, count);
        Effect(if rep.n > count then Overread else Handled, U64(rep.n),
               if rep.n > 0 then [Store(buf, SabfsHost.Delivered(rep))] else [], t)
    case WriteFd(s, buf, count) =>
      if count < 0 then Effect(Aborted, 0, [], t)
      else if count == 0 then Effect(Handled, U64(-12), [], t)
      else Effect(Handled, U64(js.write(s, GuestBytes(load, buf, count))), [], t)
    case CloseFd(g, s) => Effect(Handled, U64(js.close(s)), [], FreeTable(t, g))
    case StatPath(p, buf) =>
      var st := js.stat(p);
      if st.Some? then Effect(Handled, 0, [Store(buf, st.value)], t) else Effect(Handled, U64(-2), [], t)
    case FstatFd(s, buf) =>
      var st := js.fstat(s);
      if st.Some? then Effect(Handled, 0, [Store(buf, st.value)], t) else Effect(Handled, U64(-9), [], t)
  }

  /** The address the guest resumes at: past the SYSCALL instruction of `addend` bytes at `rip`. */
  function NextRip(rip: int, addend: int): (r: int)
    ensures IsU64(r)
    ensures (r - (rip + addend)) % TWO_64 == 0
  {
    U64(rip + addend)
  }

  /**
   * What a handled call does to the guest descriptors: a successful open
   * maps the descriptor it returns in RAX, if any, to the SABFS descriptor
   * and leaves every other one alone; a close unmaps the descriptor it was
   * given and nothing else; every other call leaves the table as it was.
   */
  lemma PerformDescriptors(a: Action, js: Js, load: int -> byte, t: Table)
    requires !a.Kernel? && JsOk(js) && t.Wf()
    ensures var e := Perform(a, js, load, t);
      && (a.OpenFile? && js.open(a.path, a.flags) >= 0 ==>
            var g := AllocResult(t.next);
            && e.rax == U64(g) && e.table.next == t.next + 1
            && (g >= 0 ==> e.table.Fd(g) == js.open(a.path, a.flags))
            && forall h :: h != g ==> e.table.Fd(h) == t.Fd(h))
      && (a.CloseFd? ==>
            && e.table.Fd(a.guestFd) < 0 && e.table.next == t.next
            && forall h :: h != a.guestFd ==> e.table.Fd(h) == t.Fd(h))
      && (!a.CloseFd? && !(a.OpenFile? && js.open(a.path, a.flags) >= 0) ==> e.table == t)
  {
  }

  /** The registers the interceptor reads and writes, and the long-mode flag. */
  class Cpu {
    var rax: int
    var rcx: int
    var rdx: int
    var rsi: int
    var rdi: int
    var eip: int
    /** HF_LMA_MASK in hflags: the guest runs in 64-bit long mode. */
    var longMode: bool

    ghost predicate Valid()
      reads this
    {
      IsU64(rax) && IsU64(rcx) && IsU64(rdx) && IsU64(rsi) && IsU64(rdi) && IsU64(eip)
    }
  }

  /** The interceptor's static state: the guest descriptor table and the sticky `sabfs_ok` flag. */
  class Interceptor {
    const fds: GuestFdTable
    var sabfsOk: bool

    ghost predicate Valid()
      reads this, fds, fds.slots
    {
      fds.Valid()
    }

    constructor ()
      ensures Valid() && fresh(fds) && fresh(fds.slots) && !sabfsOk
      ensures fds.State() == Table(seq(MaxFds, _ => 0), false, FdBase) && fds.live == {}
    {
      fds := new GuestFdTable();
      sabfsOk := false;
    }

    /** The path argument at `addr`, read the way read_guest_string reads it. */
    static method ReadPath(load: int -> byte, addr: int) returns (path: string)
      ensures path == GuestPath(load, addr)
    {
      var buf := new byte[PathBuf];
      var len := ReadGuestString(load, addr, buf);
      path := BytesToString(buf[..len]);
    }

    /**
     * The checks of sabfs_try_intercept after the mode and availability
     * tests: the path argument read from guest memory and filtered, or the
     * descriptor looked up, exactly as Classify decides.
     */
    method Decide(nr: int, rdi: int, rsi: int, rdx: int, load: int -> byte) returns (a: Action)
      requires Valid()
      ensures a == Classify(nr, rdi, rsi, rdx, load, TableFds(fds.State()))
    {
      if nr == SYS_open || nr == SYS_stat || nr == SYS_openat {
        var path := ReadPath(load, if nr == SYS_openat then rsi else rdi);
        if nr == SYS_openat && I32(rdi) != AT_FDCWD && CharAt(path, 0) != '/' {
          return Kernel;
        }
        var rewritten := RewritePath(path);
        if rewritten.None? {
          return Kernel;
        }
        if nr == SYS_stat {
          a := StatPath(rewritten.value, rsi);
        } else {
          a := OpenFile(rewritten.value, I32(if nr == SYS_openat then rdx else rsi));
        }
      } else if IsFdSyscall(nr) {
        var guestFd := I32(rdi);
        var sabfsFd := fds.GetFd(guestFd);
        if sabfsFd < 0 {
          return Kernel;
        }
        if nr == SYS_read {
          a := ReadFd(sabfsFd, rsi, ClampCount(rdx));
        } else if nr == SYS_write {
          a := WriteFd(sabfsFd, rsi, ClampCount(rdx));
        } else if nr == SYS_close {
          a := CloseFd(guestFd, sabfsFd);
        } else {
          a := FstatFd(sabfsFd, rsi);
        }
      } else {
        a := Kernel;
      }
    }

    /**
     * Carrying out a call the interceptor handles: the JavaScript request,
     * the guest descriptor allocated by open or freed by close, RAX and the
     * stores as Perform says. The return to the guest is left to the caller.
     */
    method Serve(env: Cpu, a: Action, js: Js, load: int -> byte)
      returns (out: Outcome, stores: seq<Store>, ghost e: Effect)
      requires Valid() && env.Valid() && JsOk(js) && !a.Kernel?
      modifies fds, fds.slots, env
      ensures Valid() && env.Valid() && env.longMode == old(env.longMode)
      ensures env.rdx == old(env.rdx) && env.rsi == old(env.rsi) && env.rdi == old(env.rdi)
      ensures env.rcx == old(env.rcx) && env.eip == old(env.eip)
      ensures e == Perform(a, js, load, old(fds.State())) && out == e.outcome && fds.State() == e.table
      ensures out.Resumes() ==> env.rax == e.rax && stores == e.stores
      ensures !out.Resumes() ==> stores == [] && env.rax == old(env.rax)
    {
      e := Perform(a, js, load, fds.State());
      out, stores := Handled, [];
      match a {
        case OpenFile(path, flags) =>
          var sabfsFd := js.open(path, flags);
          if sabfsFd < 0 {
            env.rax := U64(-2);
          } else {
            var guestFd := fds.Alloc(sabfsFd);
            env.rax := U64(guestFd);
          }
        case StatPath(path, buf) =>
          var st := js.stat(path);
          if st.Some? {
            stores := [Store(buf, st.value)];
            env.rax := 0;
          } else {
            env.rax := U64(-2);
          }
        case ReadFd(sabfsFd, buf, count) =>
          if count < 0 {
            return Aborted, [], e;
          }
          if count == 0 {
            env.rax := U64(-12);
          } else {
            var rep := js.read(sabfsFd, count);
            if rep.n > 0 {
              stores := [Store(buf, SabfsHost.Delivered(rep))];
            }
            if rep.n > count {
              out := Overread;
            }
            env.rax := U64(rep.n);
          }
        case WriteFd(sabfsFd, buf, count) =>
          if count < 0 {
            return Aborted, [], e;
          }
          if count == 0 {
            env.rax := U64(-12);
          } else {
            var data := ReadGuestBuffer(load, buf, count);
            env.rax := U64(js.write(sabfsFd, data));
          }
        case CloseFd(guestFd, sabfsFd) =>
          var ret := js.close(sabfsFd);
          fds.Free(guestFd);
          env.rax := U64(ret);
        case FstatFd(sabfsFd, buf) =>
          var st := js.fstat(sabfsFd);
          if st.Some? {
            stores := [Store(buf, st.value)];
            env.rax := 0;
          } else {
            env.rax := U64(-9);
          }
      }
    }

    /**
     * The body of sabfs_try_intercept once long mode and SABFS are known:
     * the call is classified; a call for the kernel changes nothing, and a
     * handled one is served and the guest resumes after the SYSCALL with
     * RCX holding the new RIP.
     */
    method Intercept(env: Cpu, addend: int, js: Js, load: int -> byte)
      returns (out: Outcome, stores: seq<Store>, ghost a: Action, ghost e: Effect)
      requires Valid() && env.Valid() && JsOk(js)
      modifies fds, fds.slots, env
      ensures Valid() && env.Valid() && env.longMode == old(env.longMode)
      ensures env.rdx == old(env.rdx) && env.rsi == old(env.rsi) && env.rdi == old(env.rdi)
      ensures a == Classify(old(env.rax), old(env.rdi), old(env.rsi), old(env.rdx), load, TableFds(old(fds.State())))
      ensures out == NotHandled <==> a.Kernel?
      ensures out == NotHandled ==>
        && stores == [] && env.rax == old(env.rax) && env.rcx == old(env.rcx) && env.eip == old(env.eip)
        && fds.State() == old(fds.State())
      ensures out != NotHandled ==> e == Perform(a, js, load, old(fds.State())) && out == e.outcome && fds.State() == e.table
      ensures out.Resumes() ==>
        env.rax == e.rax && stores == e.stores && env.eip == NextRip(old(env.eip), addend) && env.rcx == env.eip
      ensures out == Aborted ==> stores == [] && env.rax == old(env.rax) && env.rcx == old(env.rcx) && env.eip == old(env.eip)
    {
      var d := Decide(env.rax, env.rdi, env.rsi, env.rdx, load);
      a := d;
      if d.Kernel? {
        return NotHandled, [], a, Effect(NotHandled, 0, [], fds.State());
      }
      out, stores, e := Serve(env, d, js, load);
      if out.Resumes() {
        var resume := NextRip(env.eip, addend);
        env.eip, env.rcx := resume, resume;
      }
    }

    /**
     * sabfs_try_intercept. Outside long mode, and while SABFS has never been
     * seen available, nothing happens; otherwise the call is intercepted.
     */
    method TryIntercept(env: Cpu, addend: int, js: Js, load: int -> byte)
      returns (out: Outcome, stores: seq<Store>, ghost a: Action, ghost e: Effect)
      requires Valid() && env.Valid() && JsOk(js)
      modifies this, fds, fds.slots, env
      ensures Valid() && env.Valid()
      ensures sabfsOk == (old(sabfsOk) || (env.longMode && js.available)) && env.longMode == old(env.longMode)
      ensures env.rdx == old(env.rdx) && env.rsi == old(env.rsi) && env.rdi == old(env.rdi)
      ensures a == Classify(old(env.rax), old(env.rdi), old(env.rsi), old(env.rdx), load, TableFds(old(fds.State())))
      ensures out == NotHandled <==> !env.longMode || !sabfsOk || a.Kernel?
      ensures out == NotHandled ==>
        && stores == [] && env.rax == old(env.rax) && env.rcx == old(env.rcx) && env.eip == old(env.eip)
        && fds.State() == old(fds.State())
      ensures out != NotHandled ==> e == Perform(a, js, load, old(fds.State())) && out == e.outcome && fds.State() == e.table
      ensures out.Resumes() ==>
        env.rax == e.rax && stores == e.stores && env.eip == NextRip(old(env.eip), addend) && env.rcx == env.eip
      ensures out == Aborted ==> stores == [] && env.rax == old(env.rax) && env.rcx == old(env.rcx) && env.eip == old(env.eip)
    {
      if env.longMode && !sabfsOk {
        sabfsOk := js.available;
      }
      if !env.longMode || !sabfsOk {
        a := Classify(env.rax, env.rdi, env.rsi, env.rdx, load, TableFds(fds.State()));
        return NotHandled, [], a, Effect(NotHandled, 0, [], fds.State());
      }
      out, stores, a, e := Intercept(env, addend, js, load);
    }
  }
}
