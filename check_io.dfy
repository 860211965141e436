/**
 * helper_check_io of target/i386/tcg/sysemu/seg_helper.c: whether the TSS
 * I/O permission bit map lets the guest touch `size` I/O ports starting at
 * port `addr`, as section 19.5.2 ("I/O Permission Bit Map") of volume 1 of
 * the Intel 64 and IA-32 Architectures Software Developer's Manual lays it
 * down. The check either allows the access or raises a general-protection
 * fault; `IoPermitted` is true when it allows it.
 *
 * Every value the check handles is a non-negative uint32_t that never
 * wraps, so it is kept as a nat, and the C bit operators become the
 * arithmetic they compute: `x >> n` is n halvings and `x & ((1 << n) - 1)`
 * the number the low n bits of x make. Both loads are at TR.base plus an
 * offset, so kernel memory is given as `tss`, the byte at each offset from
 * TR.base; a 16-bit load is little-endian.
 */
module CheckIo {

  /** DESC_P_MASK is bit 15 of the descriptor flags: the descriptor is present. */
  const DescPresentBit := 15
  /** DESC_TYPE_SHIFT: the descriptor type sits in bits 8..11 of the flags. */
  const DescTypeShift := 8
  /** Descriptor type 9: an available 32-bit TSS. */
  const Tss32Available := 9
  /** A 32-bit TSS has at least 104 bytes, so its limit is at least 103. */
  const MinTssLimit := 103
  /** The offset in the TSS of the 16-bit I/O map base. */
  const IoMapBaseOffset := 0x66

  /** A byte value. */
  type Octet = b: int | 0 <= b < 0x100

  /** The cached TR segment's limit and descriptor flags. */
  datatype Segment = Segment(limit: nat, flags: nat)

  /** 2^n. */
  function Pow2(n: nat): (p: nat)
    ensures p >= 1
  {
    if n == 0 then 1 else 2 * Pow2(n - 1)
  }

  /** x >> n on an unsigned value. */
  function Shr(x: nat, n: nat): nat
  {
    if n == 0 then x else Shr(x / 2, n - 1)
  }

  /** x & ((1 << n) - 1): the value of the low n bits of x, below 2^n. */
  function LowBits(x: nat, n: nat): (r: nat)
    ensures r < Pow2(n)
  {
    if n == 0 then 0 else x % 2 + 2 * LowBits(x / 2, n - 1)
  }

  /** The low n bits and the rest shifted down by n put x back together. */
  lemma {:induction false} LowBitsShr(x: nat, n: nat)
    ensures x == LowBits(x, n) + Pow2(n) * Shr(x, n)
  {
    if n > 0 {
      LowBitsShr(x / 2, n - 1);
      var lo, q, p := LowBits(x / 2, n - 1), Shr(x / 2, n - 1), Pow2(n - 1);
      assert LowBits(x, n) == x % 2 + 2 * lo && Shr(x, n) == q;
      Twice(p, q, Pow2(n));
    }
  }

  /** 2^n * q is twice 2^(n-1) * q. */
  lemma Twice(p: nat, q: nat, p2: nat)
    requires p2 == 2 * p
    ensures p2 * q == 2 * (p * q)
  {
  }

  /** The split by 2^n is C's unsigned division and remainder. */
  lemma ShrIsDiv(x: nat, n: nat)
    ensures Shr(x, n) == x / Pow2(n) && LowBits(x, n) == x % Pow2(n)
  {
    LowBitsShr(x, n);
    DivModUnique(x, Pow2(n), Shr(x, n), LowBits(x, n));
  }

  /** The quotient and remainder of x by p are the only q, r with x == r + p * q and 0 <= r < p. */
  lemma DivModUnique(x: nat, p: nat, q: nat, r: nat)
    requires p > 0 && x == r + p * q && r < p
    ensures q == x / p && r == x % p
  {
    var q', r' := x / p, x % p;
    assert x == r' + p * q';
    assert q < q' ==> p * q' >= p * (q + 1) == p * q + p;
    assert q > q' ==> p * q >= p * (q' + 1) == p * q' + p;
  }

  /** Bit i of x. */
  function Bit(x: nat, i: nat): (b: nat)
    ensures b <= 1
  {
    Shr(x, i) % 2
  }

  /** Bits 0 to n - 1 of x are all clear. */
  predicate BitsClear(x: nat, n: nat)
  {
    forall c: nat :: c < n ==> Bit(x, c) == 0
  }

  /** A little-endian 16-bit load at offset `off` of the TSS. */
  function Word(tss: int -> Octet, off: int): (w: nat)
    ensures w < 0x1_0000
  {
    tss(off) + 0x100 * tss(off + 1)
  }

  /**
   * TR holds a present, available 32-bit TSS of at least 104 bytes: the
   * descriptor's bit 15 is set and its bits 8 to 11 say type 9.
   */
  predicate TssValid(tr: Segment)
    ensures TssValid(tr) <==>
      && (tr.flags / 0x8000) % 2 == 1
      && (tr.flags / 0x100) % 0x10 == Tss32Available
      && tr.limit >= MinTssLimit
  {
    ShrIsDiv(tr.flags, DescPresentBit);
    ShrIsDiv(tr.flags, DescTypeShift);
    ShrIsDiv(Shr(tr.flags, DescTypeShift), 4);
    assert Pow2(4) == 0x10 && Pow2(8) == 0x100 && Pow2(15) == 0x8000;
    && Bit(tr.flags, DescPresentBit) == 1
    && LowBits(Shr(tr.flags, DescTypeShift), 4) == Tss32Available
    && tr.limit >= MinTssLimit
  }

  /** The I/O map base the TSS holds. */
  function IoMapBase(tss: int -> Octet): (b: nat)
    ensures b < 0x1_0000
  {
    Word(tss, IoMapBaseOffset)
  }

  /**
   * The offset in the TSS of the map byte for port `addr`. The uint32_t
   * sum never wraps: the map base has 16 bits and addr / 8 has 29.
   */
  function IoOffset(tss: int -> Octet, addr: nat): (off: nat)
    requires addr < 0x1_0000_0000
    ensures off + 1 < 0x1_0000_0000
  {
    IoMapBase(tss) + addr / 8
  }

  /**
   * helper_check_io without the fault: the TSS is valid, the two map bytes
   * the check loads lie within its limit, and the `size` bits from bit
   * addr & 7 of the 16-bit word they form are all clear. The mask is
   * `(1 << size) - 1` on an int, which is defined only below 31.
   */
  predicate IoPermitted(tr: Segment, tss: int -> Octet, addr: nat, size: nat): (ok: bool)
    requires addr < 0x1_0000_0000 && size < 31
    ensures ok <==>
      && TssValid(tr)
      && IoOffset(tss, addr) < tr.limit
      && BitsClear(Shr(Word(tss, IoOffset(tss, addr)), addr % 8), size)
  {
    var val := Shr(Word(tss, IoOffset(tss, addr)), addr % 8);
    LowBitsZeroIffBitsClear(val, size);
    && TssValid(tr)
    && !(IoOffset(tss, addr) + 1 > tr.limit)
    && LowBits(val, size) == 0
  }

  /** The permission bit of port p: bit p mod 8 of map byte p / 8. */
  function PortBit(tss: int -> Octet, p: nat): (b: nat)
    ensures b <= 1
  {
    Bit(tss(IoMapBase(tss) + p / 8), p % 8)
  }

  /**
   * The rule of the manual: the access is allowed when the TSS is valid,
   * both map bytes the processor reads lie within the TSS, and the
   * permission bit of every port from `addr` to `addr + size - 1` is clear.
   */
  ghost predicate PortsPermitted(tr: Segment, tss: int -> Octet, addr: nat, size: nat)
    requires addr < 0x1_0000_0000
  {
    && TssValid(tr)
    && IoOffset(tss, addr) < tr.limit
    && forall p: nat :: addr <= p < addr + size ==> PortBit(tss, p) == 0
  }

  /** The low n bits of x make zero exactly when each of them is clear. */
  lemma {:induction false} LowBitsZeroIffBitsClear(x: nat, n: nat)
    ensures LowBits(x, n) == 0 <==> forall j :: 0 <= j < n ==> Bit(x, j) == 0
  {
    if n > 0 {
      LowBitsZeroIffBitsClear(x / 2, n - 1);
      forall j | 1 <= j < n
        ensures Bit(x, j) == Bit(x / 2, j - 1)
      {
      }
      assert Bit(x, 0) == x % 2;
      if x % 2 == 0 && forall j :: 0 <= j < n - 1 ==> Bit(x / 2, j) == 0 {
        forall j | 0 <= j < n
          ensures Bit(x, j) == 0
        {
          if j > 0 {
            assert Bit(x / 2, j - 1) == 0;
          }
        }
      }
      if forall j :: 0 <= j < n ==> Bit(x, j) == 0 {
        forall j | 0 <= j < n - 1
          ensures Bit(x / 2, j) == 0
        {
          assert Bit(x, j + 1) == 0;
        }
      }
    }
  }

  /** Shifting right by k and then by c shifts right by k + c. */
  lemma {:induction false} ShrShr(x: nat, k: nat, c: nat)
    ensures Shr(Shr(x, k), c) == Shr(x, k + c)
  {
    if k > 0 {
      ShrShr(x / 2, k - 1, c);
    }
  }

  /** Below bit m, lo + 2^m * hi has the bits of lo. */
  lemma {:induction false} LowPartBit(lo: nat, hi: nat, m: nat, i: nat)
    requires i < m
    ensures Bit(lo + Pow2(m) * hi, i) == Bit(lo, i)
  {
    var t := Pow2(m - 1) * hi;
    Twice(Pow2(m - 1), hi, Pow2(m));
    if i > 0 {
      assert (lo + 2 * t) / 2 == lo / 2 + t;
      LowPartBit(lo / 2, hi, m - 1, i - 1);
    }
  }

  /** Shifting lo + 2^m * hi right by m leaves hi when lo has fewer than m bits. */
  lemma {:induction false} HighPart(lo: nat, hi: nat, m: nat)
    requires lo < Pow2(m)
    ensures Shr(lo + Pow2(m) * hi, m) == hi
  {
    if m > 0 {
      var t := Pow2(m - 1) * hi;
      Twice(Pow2(m - 1), hi, Pow2(m));
      assert (lo + 2 * t) / 2 == lo / 2 + t;
      HighPart(lo / 2, hi, m - 1);
    }
  }

  /**
   * Bit c of a little-endian word shifted right by k is bit k + c of its
   * low byte, or bit k + c - 8 of its high byte.
   */
  lemma ShiftedWordBit(lo: Octet, hi: Octet, k: nat, c: nat)
    ensures Bit(Shr(lo + 0x100 * hi, k), c) == if k + c < 8 then Bit(lo, k + c) else Bit(hi, k + c - 8)
  {
    var w := lo + 0x100 * hi;
    assert Pow2(8) == 0x100;
    ShrShr(w, k, c);
    if k + c < 8 {
      LowPartBit(lo, hi, 8, k + c);
    } else {
      HighPart(lo, hi, 8);
      ShrShr(w, 8, k + c - 8);
    }
  }

  /**
   * Bit c of the shifted map word the check loads is the permission bit
   * of port addr + c, for the c < 9 bits the word holds from addr & 7 on.
   */
  lemma WordBitIsPortBit(tss: int -> Octet, addr: nat, c: nat)
    requires addr < 0x1_0000_0000 && c < 9
    ensures Bit(Shr(Word(tss, IoOffset(tss, addr)), addr % 8), c) == PortBit(tss, addr + c)
  {
    var off := IoOffset(tss, addr);
    ShiftedWordBit(tss(off), tss(off + 1), addr % 8, c);
    var p := addr + c;
    if addr % 8 + c < 8 {
      assert IoMapBase(tss) + p / 8 == off && p % 8 == addr % 8 + c;
    } else {
      assert IoMapBase(tss) + p / 8 == off + 1 && p % 8 == addr % 8 + c - 8;
    }
  }

  /**
   * For accesses of up to nine ports, the check agrees with the manual's
   * rule in both directions.
   */
  lemma IoPermittedIffPortsPermitted(tr: Segment, tss: int -> Octet, addr: nat, size: nat)
    requires addr < 0x1_0000_0000 && size <= 9
    ensures IoPermitted(tr, tss, addr, size) <==> PortsPermitted(tr, tss, addr, size)
  {
    var val := Shr(Word(tss, IoOffset(tss, addr)), addr % 8);
    LowBitsZeroIffBitsClear(val, size);
    forall c | 0 <= c < size
      ensures Bit(val, c) == PortBit(tss, addr + c)
    {
      WordBitIsPortBit(tss, addr, c);
    }
    if forall c :: 0 <= c < size ==> Bit(val, c) == 0 {
      forall p: nat | addr <= p < addr + size
        ensures PortBit(tss, p) == 0
      {
        assert Bit(val, p - addr) == 0;
      }
    }
    if forall p: nat :: addr <= p < addr + size ==> PortBit(tss, p) == 0 {
      forall c | 0 <= c < size
        ensures Bit(val, c) == 0
      {
        assert PortBit(tss, addr + c) == 0;
      }
    }
  }
}
