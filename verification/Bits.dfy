/** Machine words and the few bit operations that the hardware and the instruction set share. */
module Bits {
  type Word = bv32

  /** A register number. */
  type RegIndex = r: nat | r < 32

  function RegIndexOf(field: bv5): (r: RegIndex) {
    field as nat
  }

  /** x[hi:lo] as a word, given the mask that keeps hi - lo + 1 low bits. */
  function Slice(x: Word, lo: bv5, mask: Word): (r: Word) {
    (x >> lo) & mask
  }

  /** Sign extension of a field whose sign bit is the single set bit of `sign`. */
  function SignExtend(x: Word, sign: Word): (r: Word) {
    if x & sign != 0 then x | !(sign | (sign - 1)) else x
  }

  /** Addition modulo 2^32. */
  function Plus(a: Word, b: Word): (r: Word) {
    a + b
  }

  function Negative(x: Word): (r: bool) {
    x & 0x8000_0000 != 0
  }

  /** One place down, the sign kept. */
  function SignedHalf(x: Word): (r: Word) {
    (x >> 1) | (x & 0x8000_0000)
  }

  /** Arithmetic right shift: n places down, one at a time. */
  function ShiftRightArithmetic(x: Word, n: bv5): (r: Word)
    decreases n
  {
    if n == 0 then x else SignedHalf(ShiftRightArithmetic(x, n - 1))
  }

  /** Shifts use the low five bits of their second operand. */
  function ShiftAmount(b: Word): (r: bv5) {
    (b & 0x1f) as bv5
  }

  function ShiftLeft(x: Word, n: bv5): (r: Word) {
    x << n
  }

  function BoolWord(b: bool): (r: Word) {
    if b then 1 else 0
  }

  /** The address of the word that holds a byte. */
  function WordAddress(a: Word): (r: Word) {
    a & !3
  }

  function SetBits(x: Word, v: Word): (r: Word) {
    x | v
  }

  function ClearBits(x: Word, v: Word): (r: Word) {
    x & !v
  }

  /** Jump targets drop bit 0. */
  function EvenAddress(a: Word): (r: Word) {
    a & !1
  }

  /** The same address by shifting two bits out and back in. */
  function ShiftedDown(a: Word): (r: Word) {
    (a >> 2) << 2
  }

  /** Word x with the bits under the mask taken from v. */
  function TakeBits(x: Word, v: Word, mask: Word): (r: Word) {
    (x & !mask) | (v & mask)
  }

  predicate WordAligned(a: Word) {
    a & 3 == 0
  }

  /* ---- What they compute, bit by bit ---- */

  predicate Bit(x: Word, k: bv5) {
    (x >> k) & 1 == 1
  }

  lemma SignIsTopBit(x: Word)
    ensures Negative(x) <==> Bit(x, 31)
  {
  }

  /** Halving rounds down and keeps the sign. */
  lemma SignedHalfIs(x: Word)
    ensures 2 * SignedHalf(x) + x % 2 == x && (Negative(SignedHalf(x)) <==> Negative(x))
  {
  }

  lemma SignedHalfAt(x: Word, k: bv5)
    requires k < 31
    ensures Bit(SignedHalf(x), k) <==> Bit(x, k + 1)
  {
  }

  /** Every bit comes from n places up, or is the sign. */
  lemma {:induction false} ShiftRightArithmeticAt(x: Word, n: bv5, k: bv5)
    ensures Bit(ShiftRightArithmetic(x, n), k) <==> Bit(x, if k <= 31 - n then k + n else 31)
    decreases n
  {
    hide Bit, Negative, SignedHalf;
    if n > 0 {
      var y := ShiftRightArithmetic(x, n - 1);
      if k == 31 {
        SignedHalfIs(y);
        SignIsTopBit(y);
        SignIsTopBit(SignedHalf(y));
        ShiftRightArithmeticAt(x, n - 1, 31);
      } else {
        SignedHalfAt(y, k);
        ShiftRightArithmeticAt(x, n - 1, k + 1);
      }
    }
  }

  /** A field of s + 1 bits keeps them, and all above are its sign. */
  lemma SignExtendAt(x: Word, s: bv5, k: bv5)
    requires x >> s <= 1
    ensures Bit(SignExtend(x, 1 << s), k) == if k <= s then Bit(x, k) else Bit(x, s)
  {
    hide Bit, SignExtend;
    if k <= s { SignExtendKeeps(x, s, k); } else { SignExtendFills(x, s, k); }
  }

  lemma SignExtendKeeps(x: Word, s: bv5, k: bv5)
    requires k <= s
    ensures Bit(SignExtend(x, 1 << s), k) <==> Bit(x, k)
  {
  }

  lemma SignExtendFills(x: Word, s: bv5, k: bv5)
    requires x >> s <= 1 && k > s
    ensures Bit(SignExtend(x, 1 << s), k) <==> Bit(x, s)
  {
  }

  /** The bits named by v are set, the others kept. */
  lemma SetBitsIs(x: Word, v: Word)
    ensures SetBits(x, v) & v == v && SetBits(x, v) & !v == x & !v
  {
  }

  /** The bits named by v are cleared, the others kept. */
  lemma ClearBitsIs(x: Word, v: Word)
    ensures ClearBits(x, v) & v == 0 && ClearBits(x, v) & !v == x & !v
  {
  }

  /* ---- Masks are remainders ---- */

  lemma ShiftAmountIs(b: Word)
    ensures ShiftAmount(b) == (b % 32) as bv5
  {
  }

  /** Data addresses are rounded down to a word, jump targets to an even address. */
  lemma AddressesRound(a: Word)
    ensures WordAddress(a) == a - a % 4 && EvenAddress(a) == a - a % 2
  {
    hide WordAddress, EvenAddress;
    WordAddressIs(a);
    EvenAddressIs(a);
  }

  lemma WordAddressIs(a: Word)
    ensures WordAddress(a) == a - a % 4
  {
  }

  lemma EvenAddressIs(a: Word)
    ensures EvenAddress(a) == a - a % 2
  {
  }
}
