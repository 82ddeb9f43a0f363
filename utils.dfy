/**
 * Alignment and byte-extraction macros of the kernel's utility header.
 * Addresses and sizes are 32-bit (uintptr_t and size_t on the i386
 * target). The generic alignment macros take a power-of-two alignment
 * 2^k; masking with ~(2^k - 1) clears the k low bits of a value, which is
 * written here as rounding down to a multiple of 2^k. The fixed page
 * macros are stated on bv32 directly.
 */
module Utils {
  const WordModulus: nat := 0x1_0000_0000

  type u32 = x: int | 0 <= x < 0x1_0000_0000

  function Pow2(k: nat): (r: nat)
    ensures r >= 1
  {
    if k == 0 then 1 else 2 * Pow2(k - 1)
  }

  lemma {:induction false} Pow2Add(i: nat, j: nat)
    ensures Pow2(i + j) == Pow2(i) * Pow2(j)
  {
    if i > 0 {
      Pow2Add(i - 1, j);
    }
  }

  lemma {:induction false} MulMonotone(p: int, q: int, a: int)
    requires p <= q && a >= 0
    ensures p * a <= q * a
    decreases q - p
  {
    if p < q {
      MulMonotone(p, q - 1, a);
      assert q * a == (q - 1) * a + a;
    }
  }

  /** Euclidean division is unique: x = q*a + r with 0 <= r < a fixes x / a and x % a. */
  lemma DivModUnique(x: int, a: int, q: int, r: int)
    requires a > 0 && 0 <= r < a && x == q * a + r
    ensures x / a == q && x % a == r
  {
    var q', r' := x / a, x % a;
    assert x == q' * a + r';
    if q > q' {
      MulMonotone(q' + 1, q, a);
      assert false;
    }
    if q < q' {
      MulMonotone(q + 1, q', a);
      assert false;
    }
  }

  /** v & ~(a - 1) for a power of two a: v with its low bits cleared, i.e. rounded down to a multiple of a. */
  function ClearLowBits(v: nat, a: nat): (r: nat)
    requires a >= 1
    ensures r % a == 0
    ensures r <= v && v - r < a
  {
    var q := v / a;
    assert v == q * a + v % a;
    DivModUnique(q * a, a, q, 0);
    q * a
  }

  /**
   * ALIGN and ALIGN_SIZE (the same expression): (addr + 2^k - 1) & ~(2^k - 1),
   * with the addition wrapping at 2^32. Without wrap-around the result is
   * the least multiple of 2^k that is not below addr.
   */
  function Align(addr: u32, k: nat): (r: u32)
    requires k < 32
    ensures r % Pow2(k) == 0
    ensures addr + Pow2(k) - 1 < WordModulus ==> addr <= r < addr + Pow2(k)
  {
    var a := Pow2(k);
    ClearLowBits((addr + a - 1) % WordModulus, a)
  }

  /** IS_ALIGNED: (addr & (2^k - 1)) == 0, i.e. no low bit below the alignment is set. */
  predicate IsAligned(addr: u32, k: nat)
  {
    addr % Pow2(k) == 0
  }

  lemma Pow2Of32()
    ensures Pow2(32) == WordModulus
  {
    assert Pow2(8) == 0x100;
    Pow2Add(8, 8);
    Pow2Add(16, 16);
  }

  /** A multiple of a below a * m is at most a * m - a. */
  lemma RoomBelowMultiple(x: nat, a: nat, m: nat)
    requires a >= 1 && x < a * m && x % a == 0
    ensures x + a <= a * m
  {
    var q := x / a;
    assert x == q * a;
    if q >= m {
      MulMonotone(m, q, a);
      assert false;
    }
    MulMonotone(q, m - 1, a);
  }

  /** An aligned 32-bit value leaves room for one more alignment step below 2^32. */
  lemma AlignedHasRoom(addr: u32, k: nat)
    requires k < 32 && IsAligned(addr, k)
    ensures addr + Pow2(k) <= WordModulus
  {
    Pow2Add(k, 32 - k);
    Pow2Of32();
    RoomBelowMultiple(addr, Pow2(k), Pow2(32 - k));
  }

  /** ALIGN of an already aligned value is that value. */
  lemma {:induction false} AlignOfAligned(addr: u32, k: nat)
    requires k < 32 && IsAligned(addr, k)
    ensures Align(addr, k) == addr
  {
    var a := Pow2(k);
    AlignedHasRoom(addr, k);
    var r := Align(addr, k);
    assert addr <= r < addr + a;
    var p := addr / a;
    assert addr == p * a;
    DivModUnique(r, a, p, r - addr);
  }

  /** Whatever ALIGN returns passes IS_ALIGNED, even when the addition wraps. */
  lemma AlignIsAligned(addr: u32, k: nat)
    requires k < 32
    ensures IsAligned(Align(addr, k), k)
  {
  }

  /** PAGE_ALIGN_UP: despite its name, it rounds DOWN to a page boundary. */
  function PageAlignUp(addr: bv32): (r: bv32)
    ensures r % 0x1000 == 0
    ensures r <= addr && addr - r < 0x1000
  {
    addr & !0xFFF
  }

  /** PAGE_ALIGN_DWN: despite its name, it rounds UP to a page boundary (wrapping to 0 above the last page). */
  function PageAlignDwn(addr: bv32): (r: bv32)
    ensures r % 0x1000 == 0
    ensures addr <= 0xFFFF_F000 ==> addr <= r && r - addr < 0x1000
    ensures addr > 0xFFFF_F000 ==> r == 0
  {
    (addr + 0xFFF) & !0xFFF
  }

  function LowByte(x: bv16): (r: bv8)
    ensures r as bv16 == x % 0x100
  {
    (x & 0xFF) as bv8
  }

  function HighByte(x: bv16): (r: bv8)
    ensures r as bv16 == x / 0x100
  {
    ((x >> 8) & 0xFF) as bv8
  }

  /** The two bytes recombine into the 16-bit value. */
  lemma BytesRecombine(x: bv16)
    ensures ((HighByte(x) as bv16) << 8) | (LowByte(x) as bv16) == x
  {
  }
}
