/**
 * Value types shared by every part of the model: an optional value for the
 * C code's NULL / "-1 on failure" returns, and the fixed-width integer
 * conversions the C code performs implicitly.
 */
module CTypes {

  type byte = bv8

  datatype Option<+T> = None | Some(value: T)

  /** The errno values the SABFS code sets. */
  datatype Errno = ENOENT | EBADF | EIO | ENOMEM | ENOTSUP | EPERM | EINVAL

  /** C's `/` on signed integers: the quotient truncated toward zero. */
  function CDiv(a: int, b: int): (q: int)
    requires b > 0
    ensures a >= 0 ==> 0 <= a - q * b < b
    ensures a < 0 ==> 0 <= q * b - a < b
  {
    if a >= 0 then a / b else -((-a) / b)
  }

  function Min(a: int, b: int): int { if a <= b then a else b }

  function Max(a: int, b: int): int { if a <= b then b else a }

  const TWO_31: int := 0x8000_0000
  const TWO_32: int := 0x1_0000_0000
  const TWO_63: int := 0x8000_0000_0000_0000
  const TWO_64: int := 0x1_0000_0000_0000_0000

  predicate IsU32(x: int) { 0 <= x < TWO_32 }
  predicate IsI32(x: int) { -TWO_31 <= x < TWO_31 }
  predicate IsU64(x: int) { 0 <= x < TWO_64 }

  /** Conversion to a 64-bit unsigned value (uint64_t, target_ulong): reduction modulo 2^64. */
  function U64(x: int): (r: int)
    ensures IsU64(r)
    ensures (x - r) % TWO_64 == 0
    ensures IsU64(x) ==> r == x
  {
    x % TWO_64
  }

  /** Conversion to a 32-bit two's-complement `int`: the low 32 bits, read as signed. */
  function I32(x: int): (r: int)
    ensures IsI32(r)
    ensures (x - r) % TWO_32 == 0
    ensures IsI32(x) ==> r == x
  {
    var m := x % TWO_32;
    if m < TWO_31 then m else m - TWO_32
  }

  /** Conversion of a uint64_t to the signed 64-bit off_t: the same bits, read as signed. */
  function I64(x: int): (r: int)
    requires IsU64(x)
    ensures -TWO_63 <= r < TWO_63
    ensures x < TWO_63 ==> r == x
    ensures x >= TWO_63 ==> r == x - TWO_64
  {
    if x < TWO_63 then x else x - TWO_64
  }

  /**
   * `lo + ((uint64_t)hi << 32)` stored into a signed 64-bit st_size: the way
   * the stat code rebuilds a file size the JavaScript side split into halves.
   */
  function JoinSize(lo: int, hi: int): (size: int)
    requires IsU32(lo) && IsU32(hi)
    ensures hi < TWO_31 ==> size == lo + hi * TWO_32 && size >= 0
  {
    I64(U64(lo + U64(hi * TWO_32)))
  }

  /**
   * The JavaScript side sends a size as `size & 0xFFFFFFFF` and
   * `floor(size / 2^32)`; joining the halves gives the size back for every
   * size a signed 64-bit st_size can hold.
   */
  lemma {:induction false} JoinSplitSize(size: int)
    requires 0 <= size < TWO_63
    ensures IsU32(size % TWO_32) && IsU32(size / TWO_32)
    ensures JoinSize(size % TWO_32, size / TWO_32) == size
  {
    var lo, hi := size % TWO_32, size / TWO_32;
    assert size == hi * TWO_32 + lo;
    assert hi < TWO_31;
  }
}
