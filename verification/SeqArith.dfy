/** Machine integers and the wrap-safe TCP sequence comparisons of RFC 9293 section 3.4.
    Comparisons go through a wrapping subtraction read as a signed 32-bit number, so they
    agree with an ordinary order only inside half the sequence space. */
module SeqArith {

  type u8 = x: int | 0 <= x < 0x100
  type u16 = x: int | 0 <= x < 0x1_0000
  type u32 = x: int | 0 <= x < 0x1_0000_0000
  type u64 = x: int | 0 <= x < 0x1_0000_0000_0000_0000

  datatype Option<+T> = None | Some(value: T)

  function Min(a: int, b: int): int { if a <= b then a else b }

  function Max(a: int, b: int): int { if a <= b then b else a }

  function SatSub(a: int, b: int): int { if a <= b then 0 else a - b }

  function Pow2(n: nat): (r: nat)
    ensures r >= 1
  {
    if n == 0 then 1 else 2 * Pow2(n - 1)
  }

  /** `wrapping_add` on 32 bits. */
  function SeqAdd(a: u32, n: int): u32 { (a + n) % 0x1_0000_0000 }

  /** `wrapping_sub` on 32 bits. */
  function SeqSub(a: u32, b: u32): u32 { (a - b) % 0x1_0000_0000 }

  /** The two's-complement reading `as i32`. */
  function AsI32(d: u32): int { if d < 0x8000_0000 then d else d - 0x1_0000_0000 }

  /** The truncating cast of a count to a signed 16-bit number. */
  function AsI16(n: int): int {
    var low := n % 0x1_0000;
    if low < 0x8000 then low else low - 0x1_0000
  }

  predicate SeqLt(a: u32, b: u32) { AsI32(SeqSub(a, b)) < 0 }

  predicate SeqLe(a: u32, b: u32) { AsI32(SeqSub(a, b)) <= 0 }

  predicate InWindow(start: u32, s: u32, len: u32) { len != 0 && SeqSub(s, start) < len }

  /** The position of `s` counted from `base`. */
  function Off(base: u32, s: u32): nat { SeqSub(s, base) }

  lemma SubCases(a: u32, b: u32)
    ensures SeqSub(a, b) == if b <= a then a - b else a - b + 0x1_0000_0000
  {
  }

  /** Inside half the space seen from `base`, the wrapping comparisons are the order on
      positions. */
  lemma SeqOrder(base: u32, a: u32, b: u32)
    requires -0x8000_0000 < Off(base, a) - Off(base, b) < 0x8000_0000
    ensures SeqLt(a, b) <==> Off(base, a) < Off(base, b)
    ensures SeqLe(a, b) <==> Off(base, a) <= Off(base, b)
  {
    SubCases(a, base);
    SubCases(b, base);
    SubCases(a, b);
    hide SeqSub;
  }

  /** Exactly at half the space the comparison is not antisymmetric: each of two opposite
      numbers is below the other. */
  lemma HalfSpaceIsAmbiguous(a: u32)
    ensures SeqLt(a, SeqAdd(a, 0x8000_0000)) && SeqLt(SeqAdd(a, 0x8000_0000), a)
  {
    var b := SeqAdd(a, 0x8000_0000);
    assert b == a + 0x8000_0000 || b == a - 0x8000_0000;
  }

  lemma OffAdd(base: u32, s: u32, n: nat)
    requires Off(base, s) + n < 0x1_0000_0000
    ensures Off(base, SeqAdd(s, n)) == Off(base, s) + n
  {
  }

  /** Moving the base forward by `d` moves every position at or past it back by `d`. */
  lemma OffRebase(base: u32, d: nat, s: u32)
    requires d <= Off(base, s)
    ensures Off(SeqAdd(base, d), s) == Off(base, s) - d
  {
  }

  lemma SubOff(base: u32, a: u32, b: u32)
    requires Off(base, b) <= Off(base, a)
    ensures SeqSub(a, b) == Off(base, a) - Off(base, b)
  {
  }

  lemma AddTwice(base: u32, a: nat, b: nat)
    ensures SeqAdd(SeqAdd(base, a), b) == SeqAdd(base, a + b)
  {
  }

  lemma MulMono(a: int, b: int, k: nat)
    requires a <= b
    ensures a * k <= b * k
  {
  }

  lemma {:induction false} PowMono(a: nat, b: nat)
    requires a <= b
    ensures Pow2(a) <= Pow2(b)
    decreases b
  {
    if a < b {
      PowMono(a, b - 1);
    }
  }

  lemma PowFourteen()
    ensures Pow2(14) == 0x4000
  {
    assert Pow2(7) == 0x80;
    assert Pow2(14) == 0x80 * Pow2(7);
  }
}
