/**
 * Byte copies between guest virtual memory and host buffers in the SABFS
 * syscall interceptor (target/i386/tcg/sysemu/seg_helper.c). Guest memory
 * is read through `load`, the value cpu_ldub_data gives for an address;
 * addresses wrap modulo 2^64.
 */
module GuestMemory {
  import opened CTypes

  /** The byte at guest address `addr + i`. */
  function ByteAt(load: int -> byte, addr: int, i: int): (b: byte)
    ensures forall a :: (a - (addr + i)) % TWO_64 == 0 ==> b == load(U64(a))
  {
    load(U64(addr + i))
  }

  /**
   * The index of the first NUL in guest memory at or after offset i,
   * looking no further than `limit`; `limit` when there is none before it.
   */
  function NulIndexFrom(load: int -> byte, addr: int, i: nat, limit: nat): (r: nat)
    requires i <= limit
    ensures i <= r <= limit
    ensures forall j :: i <= j < r ==> ByteAt(load, addr, j) != 0
    ensures r < limit ==> ByteAt(load, addr, r) == 0
    decreases limit - i
  {
    if i == limit then limit
    else if ByteAt(load, addr, i) == 0 then i
    else NulIndexFrom(load, addr, i + 1, limit)
  }

  /** The `len` guest bytes starting at `addr`: what read_guest_buffer copies. */
  function GuestBytes(load: int -> byte, addr: int, len: nat): (bs: seq<byte>)
    ensures |bs| == len
    ensures forall j :: 0 <= j < len ==> bs[j] == ByteAt(load, addr, j)
  {
    seq(len, j requires 0 <= j < len => ByteAt(load, addr, j))
  }

  /**
   * The C string read_guest_string leaves in a buffer of `maxLen` bytes:
   * the guest bytes before the first NUL, at most maxLen - 1 of them.
   */
  function GuestString(load: int -> byte, addr: int, maxLen: nat): (bs: seq<byte>)
    requires maxLen >= 1
    ensures |bs| <= maxLen - 1
    ensures forall j :: 0 <= j < |bs| ==> bs[j] != 0 && bs[j] == ByteAt(load, addr, j)
    ensures |bs| < maxLen - 1 ==> ByteAt(load, addr, |bs|) == 0
  {
    GuestBytes(load, addr, NulIndexFrom(load, addr, 0, maxLen - 1))
  }

  /**
   * read_guest_string: copies guest bytes into `buf` up to and including
   * the first NUL, never more than buf.Length - 1 of them, and always
   * terminates the copy. The result is the copied string's length.
   */
  method ReadGuestString(load: int -> byte, addr: int, buf: array<byte>) returns (len: int)
    requires buf.Length >= 1
    modifies buf
    ensures 0 <= len < buf.Length
    ensures buf[..len] == GuestString(load, addr, buf.Length)
    ensures buf[len] == 0
    ensures forall j :: len < j < buf.Length ==> buf[j] == old(buf[j])
  {
    var i := 0;
    while i < buf.Length - 1
      invariant 0 <= i <= buf.Length - 1
      invariant NulIndexFrom(load, addr, i, buf.Length - 1) == NulIndexFrom(load, addr, 0, buf.Length - 1)
      invariant forall j :: 0 <= j < i ==> buf[j] == ByteAt(load, addr, j)
      invariant forall j :: i <= j < buf.Length ==> buf[j] == old(buf[j])
    {
      var c := load(U64(addr + i));
      buf[i] := c;
      if c == 0 {
        break;
      }
      i := i + 1;
    }
    buf[i] := 0;
    len := i;
    assert buf[..len] == GuestBytes(load, addr, NulIndexFrom(load, addr, 0, buf.Length - 1));
  }

  /** read_guest_buffer: `len` guest bytes from `addr`, in order. */
  method ReadGuestBuffer(load: int -> byte, addr: int, len: nat) returns (bs: seq<byte>)
    ensures bs == GuestBytes(load, addr, len)
  {
    bs := [];
    var i := 0;
    while i < len
      invariant 0 <= i <= len
      invariant bs == GuestBytes(load, addr, i)
    {
      bs := bs + [load(U64(addr + i))];
      i := i + 1;
    }
  }
}
