/**
 * The guest descriptor table of the SABFS syscall interceptor
 * (target/i386/tcg/sysemu/seg_helper.c): guest descriptors 10000..10255
 * stand for SABFS descriptors. The counter that hands them out only ever
 * grows, so each guest descriptor is issued at most once.
 *
 * The slots are set to -1 only on the first allocation. The lookup as
 * written reads them even before that, while they still hold their
 * static zeros; `LookupAsWritten` models that and `Lookup`, which the rest
 * of the model uses, treats the table as empty until it is initialised.
 */
module GuestFds {

  const FdBase := 10000
  const MaxFds := 256

  /** sabfs_get_fd as written: the slot of a guest descriptor in range, -1 outside. */
  function LookupAsWritten(m: seq<int>, g: int): (s: int)
    requires |m| == MaxFds
    ensures !(FdBase <= g < FdBase + MaxFds) ==> s == -1
    ensures FdBase <= g < FdBase + MaxFds ==> s == m[g - FdBase]
  {
    var idx := g - FdBase;
    if 0 <= idx < MaxFds then m[idx] else -1
  }

  /** sabfs_get_fd as intended: nothing is mapped before the slots have been initialised. */
  function Lookup(m: seq<int>, initialized: bool, g: int): (s: int)
    requires |m| == MaxFds
    ensures !initialized ==> s == -1
    ensures initialized ==> s == LookupAsWritten(m, g)
  {
    if initialized then LookupAsWritten(m, g) else -1
  }

  /**
   * Before the first open the slots still hold their static zeros, so the
   * lookup as written reports guest descriptor 10000 as mapped to SABFS
   * descriptor 0, where nothing has been opened; the corrected lookup
   * reports it unmapped.
   */
  lemma UninitializedMapLooksMapped()
    ensures LookupAsWritten(seq(MaxFds, _ => 0), FdBase) == 0
    ensures Lookup(seq(MaxFds, _ => 0), false, FdBase) == -1
  {
  }

  /** The table as a value: the slots, whether they have been initialised, and the counter. */
  datatype Table = Table(slots: seq<int>, initialized: bool, next: int)
  {
    predicate Wf()
    {
      |slots| == MaxFds
    }

    /** The SABFS descriptor guest descriptor g stands for, or a negative value. */
    function Fd(g: int): int
      requires Wf()
    {
      Lookup(slots, initialized, g)
    }
  }

  /** The guest descriptor sabfs_alloc_guest_fd hands out when its counter stands at `next`. */
  function AllocResult(next: int): (g: int)
    ensures g == -1 || (FdBase <= g < FdBase + MaxFds && g == next)
    ensures g >= 0 <==> FdBase <= next < FdBase + MaxFds
  {
    if FdBase <= next < FdBase + MaxFds then next else -1
  }

  /** sabfs_init_fd_map: the first call sets every slot to -1; no lookup changes. */
  function InitTable(t: Table): (t': Table)
    requires t.Wf()
    ensures t'.Wf() && t'.initialized && t'.next == t.next
    ensures forall g :: t'.Fd(g) == t.Fd(g)
  {
    if t.initialized then t else Table(seq(MaxFds, _ => -1), true, t.next)
  }

  /**
   * sabfs_alloc_guest_fd: the table afterwards and the guest descriptor
   * returned. The counter moves on by one on every call; while it is below
   * 10256 the descriptor it stood at is recorded for `sabfsFd` and
   * returned, and from then on every call returns -1, whatever has been
   * freed. No other guest descriptor changes.
   */
  function AllocTable(t: Table, sabfsFd: int): (r: (Table, int))
    requires t.Wf()
    ensures r.0.Wf() && r.0.initialized && r.0.next == t.next + 1
    ensures r.1 == AllocResult(t.next)
    ensures r.1 >= 0 ==> r.0.Fd(r.1) == sabfsFd
    ensures forall h :: h != r.1 ==> r.0.Fd(h) == t.Fd(h)
  {
    var t0 := InitTable(t);
    var idx := t.next - FdBase;
    if 0 <= idx < MaxFds then (Table(t0.slots[idx := sabfsFd], true, t.next + 1), t.next)
    else (Table(t0.slots, true, t.next + 1), -1)
  }

  /**
   * A run of sabfs_alloc_guest_fd calls, one per SABFS descriptor in
   * `fds`: the table afterwards and the guest descriptors returned, in order.
   */
  function Allocs(t: Table, fds: seq<int>): (r: (Table, seq<int>))
    requires t.Wf()
    ensures r.0.Wf() && |r.1| == |fds| && r.0.next == t.next + |fds|
    ensures forall h :: h !in r.1 ==> r.0.Fd(h) == t.Fd(h)
    decreases |fds|
  {
    if fds == [] then (t, [])
    else
      var first := AllocTable(t, fds[0]);
      var rest := Allocs(first.0, fds[1..]);
      (rest.0, [first.1] + rest.1)
  }

  /**
   * Guest descriptors are handed out in order from the counter on, one per
   * call, until 10256; from then on every call returns -1. Each descriptor
   * handed out stands for the SABFS descriptor it was allocated for.
   */
  lemma {:induction false} AllocsInOrder(t: Table, fds: seq<int>)
    requires t.Wf() && t.next >= FdBase
    ensures var r := Allocs(t, fds);
      forall j :: 0 <= j < |fds| ==>
        && r.1[j] == (if t.next + j < FdBase + MaxFds then t.next + j else -1)
        && (r.1[j] >= 0 ==> r.0.Fd(r.1[j]) == fds[j])
    decreases |fds|
  {
    if fds != [] {
      var first := AllocTable(t, fds[0]);
      AllocsInOrder(first.0, fds[1..]);
      var rest := Allocs(first.0, fds[1..]);
      var r := Allocs(t, fds);
      assert r.1 == [first.1] + rest.1;
      forall j | 0 <= j < |fds|
        ensures r.1[j] == (if t.next + j < FdBase + MaxFds then t.next + j else -1)
        ensures r.1[j] >= 0 ==> r.0.Fd(r.1[j]) == fds[j]
      {
        if j == 0 {
          if first.1 >= 0 {
            assert forall k :: 0 <= k < |rest.1| ==> rest.1[k] == -1 || rest.1[k] > first.1;
            assert first.1 !in rest.1;
          }
        } else {
          assert r.1[j] == rest.1[j - 1];
          assert fds[1..][j - 1] == fds[j];
        }
      }
    }
  }

  /** sabfs_free_guest_fd: guest descriptor g maps to nothing; no other descriptor changes. */
  function FreeTable(t: Table, g: int): (t': Table)
    requires t.Wf()
    ensures t'.Wf() && t'.initialized == t.initialized && t'.next == t.next
    ensures t'.Fd(g) < 0
    ensures forall h :: h != g ==> t'.Fd(h) == t.Fd(h)
  {
    var idx := g - FdBase;
    if 0 <= idx < MaxFds then Table(t.slots[idx := -1], t.initialized, t.next) else t
  }

  class GuestFdTable {
    /** sabfs_fd_map: slot g - 10000 holds the SABFS descriptor of guest descriptor g, or -1. */
    var slots: array<int>
    /** sabfs_next_guest_fd. */
    var next: int
    /** sabfs_fd_initialized. */
    var initialized: bool
    /** The guest descriptors currently standing for a SABFS descriptor. */
    ghost var live: set<int>

    ghost predicate Valid()
      reads this, slots
    {
      && slots.Length == MaxFds
      && FdBase <= next
      && (forall g :: g in live ==> FdBase <= g < next && g < FdBase + MaxFds)
      && (!initialized ==> live == {})
      && (initialized ==> forall i :: 0 <= i < MaxFds ==> (slots[i] >= 0 <==> FdBase + i in live))
    }

    /** The table's state as a value. */
    function State(): (t: Table)
      reads this, slots
      requires Valid()
      ensures t.Wf()
    {
      Table(slots[..], initialized, next)
    }

    /** The static state: zero-filled slots, not initialised, the counter at 10000. */
    constructor ()
      ensures Valid() && fresh(slots)
      ensures State() == Table(seq(MaxFds, _ => 0), false, FdBase) && live == {}
    {
      slots := new int[MaxFds](_ => 0);
      next := FdBase;
      initialized := false;
      live := {};
    }

    /** sabfs_get_fd, corrected: a SABFS descriptor exactly for the live guest descriptors. */
    function GetFd(g: int): (s: int)
      reads this, slots
      requires Valid()
      ensures s == State().Fd(g)
      ensures s >= 0 <==> g in live
      ensures !(FdBase <= g < FdBase + MaxFds) ==> s == -1
    {
      if initialized then
        assert FdBase <= g < FdBase + MaxFds ==> (slots[g - FdBase] >= 0 <==> FdBase + (g - FdBase) in live);
        Lookup(slots[..], initialized, g)
      else -1
    }

    /**
     * sabfs_get_fd as written: once the slots are initialised it agrees
     * with the corrected lookup; before that it reads the slot of any
     * in-range descriptor, so a descriptor it reports mapped without being
     * live can only show up before the first open.
     */
    function GetFdAsWritten(g: int): (s: int)
      reads this, slots
      requires Valid()
      ensures initialized ==> s == GetFd(g)
      ensures !initialized && FdBase <= g < FdBase + MaxFds ==> s == slots[g - FdBase]
      ensures !(FdBase <= g < FdBase + MaxFds) ==> s == -1
      ensures s >= 0 && g !in live ==> !initialized
    {
      LookupAsWritten(slots[..], g)
    }

    /** sabfs_init_fd_map. */
    method InitMap()
      requires Valid()
      modifies this, slots
      ensures Valid() && slots == old(slots) && live == old(live)
      ensures State() == InitTable(old(State()))
    {
      if !initialized {
        var i := 0;
        while i < MaxFds
          invariant 0 <= i <= MaxFds
          invariant slots == old(slots) && next == old(next) && live == {} && !initialized
          invariant forall j :: 0 <= j < i ==> slots[j] == -1
        {
          slots[i] := -1;
          i := i + 1;
        }
        initialized := true;
        assert slots[..] == seq(MaxFds, _ => -1);
      }
    }

    /**
     * sabfs_alloc_guest_fd. A returned descriptor was never live before
     * and is live afterwards.
     */
    method Alloc(sabfsFd: int) returns (g: int)
      requires Valid() && sabfsFd >= 0
      modifies this, slots
      ensures Valid() && slots == old(slots)
      ensures (State(), g) == AllocTable(old(State()), sabfsFd)
      ensures g >= 0 ==> g !in old(live) && live == old(live) + {g}
      ensures g < 0 ==> live == old(live)
    {
      ghost var t := State();
      InitMap();
      g := next;
      next := next + 1;
      var idx := g - FdBase;
      if 0 <= idx < MaxFds {
        slots[idx] := sabfsFd;
        live := live + {g};
        assert slots[..] == InitTable(t).slots[idx := sabfsFd];
        return g;
      }
      return -1;
    }

    /** sabfs_free_guest_fd: the guest descriptor no longer stands for anything. */
    method Free(g: int)
      requires Valid()
      modifies this, slots
      ensures Valid() && slots == old(slots) && live == old(live) - {g}
      ensures State() == FreeTable(old(State()), g)
    {
      ghost var t := State();
      var idx := g - FdBase;
      if 0 <= idx < MaxFds {
        slots[idx] := -1;
        assert slots[..] == t.slots[idx := -1];
      }
      live := live - {g};
    }
  }
}
