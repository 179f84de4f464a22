/** Bytes, words and the C bit operations the toolchain applies to them.

    Masks and shifts with constant operands are written as Euclidean division
    and remainder, which is what they compute on a two's complement value of
    any width; the general AND and OR of two bytes are defined bit by bit. */
module Bits {
  type byte = x: int | 0 <= x < 0x100

  function BitAnd(a: nat, b: nat): nat
    decreases a
  {
    if a == 0 then 0
    else (if a % 2 == 1 && b % 2 == 1 then 1 else 0) + 2 * BitAnd(a / 2, b / 2)
  }

  function BitOr(a: nat, b: nat): nat
    decreases a
  {
    if a == 0 then b
    else (if a % 2 == 1 || b % 2 == 1 then 1 else 0) + 2 * BitOr(a / 2, b / 2)
  }

  /** v & 0xFF */
  function Low8(v: int): byte { v % 0x100 }

  /** (v >> 8) & 0xFF */
  function High8(v: int): byte { v / 0x100 % 0x100 }

  function Word(hi: byte, lo: byte): nat { hi * 0x100 + lo }

  /** ((b ^ 0x80) & 0xFF) - 0x80: flipping the top bit of a byte adds 0x80
      modulo 0x100. */
  function SignExtend(b: byte): int { (b + 0x80) % 0x100 - 0x80 }

  /** A15..A11 of an address, the bits (x & 0xF800) keeps. */
  function Page(x: int): nat { x / 0x800 % 32 }

  /** The two bytes of a word make it again. */
  lemma WordBack(v: int)
    ensures Word(High8(v), Low8(v)) == v % 0x10000
  {
    var q, r := v / 0x100, v % 0x100;
    var p, t := q / 0x100, q % 0x100;
    assert v == q * 0x100 + r && q == p * 0x100 + t;
    assert v == p * 0x10000 + (t * 0x100 + r) && 0 <= t * 0x100 + r < 0x10000;
  }

  /** AND with a mask whose K low bits are one. */
  lemma {:induction false} AndLowMask(a: nat, m: nat)
    ensures BitAnd(a, 2 * m + 1) == a % 2 + 2 * BitAnd(a / 2, m)
    ensures BitAnd(a, 2 * m) == 2 * BitAnd(a / 2, m)
  {
    assert (2 * m + 1) / 2 == m && (2 * m + 1) % 2 == 1;
    assert (2 * m) / 2 == m && (2 * m) % 2 == 0;
    if a == 0 {
      assert BitAnd(a / 2, m) == 0;
    }
  }

  lemma {:induction false} AndZero(a: nat)
    ensures BitAnd(a, 0) == 0
  {
    if a != 0 { AndZero(a / 2); }
  }

  function Ones(k: nat): nat { if k == 0 then 0 else 2 * Ones(k - 1) + 1 }

  lemma {:induction false} AndOnes(a: nat, k: nat)
    requires a <= Ones(k)
    ensures BitAnd(a, Ones(k)) == a
  {
    if k == 0 {
      AndZero(a);
    } else {
      AndOnes(a / 2, k - 1);
      AndLowMask(a, Ones(k - 1));
    }
  }

  /** The four masks the opcode table uses, on one byte. */
  lemma OpcodeMasks(b: byte)
    ensures BitAnd(b, 0xFF) == b
    ensures BitAnd(b, 0xFE) == b - b % 2
    ensures BitAnd(b, 0xF8) == b - b % 8
    ensures BitAnd(b, 0x1F) == b % 32
  {
    assert Ones(5) == 0x1F && Ones(7) == 0x7F && Ones(8) == 0xFF;
    AndOnes(b, 8);
    AndOnes(b / 2, 7);
    AndLowMask(b, 0x7F);
    AndTopFive(b);
    AndLowFive(b);
  }

  lemma AndTopFive(b: byte)
    ensures BitAnd(b, 0xF8) == b - b % 8
  {
    assert Ones(5) == 0x1F;
    var q := b / 8;
    AndOnes(q, 5);
    AndLowMask(b, 0x7C); AndLowMask(b / 2, 0x3E); AndLowMask(b / 4, 0x1F);
    assert b / 4 / 2 == q && b / 2 / 2 == b / 4;
  }

  lemma AndLowFive(a: nat)
    ensures BitAnd(a, 0x1F) == a % 32
  {
    AndLowMask(a, 0x0F); AndLowMask(a / 2, 0x07); AndLowMask(a / 4, 0x03);
    AndLowMask(a / 8, 0x01); AndLowMask(a / 16, 0); AndZero(a / 32);
    assert a / 2 / 2 == a / 4 && a / 4 / 2 == a / 8 && a / 8 / 2 == a / 16 && a / 16 / 2 == a / 32;
  }

  /** OR of a register number into opcode bits that are clear is addition. */
  lemma OrRegister(a: nat, r: nat)
    requires (a % 8 == 0 && r < 8) || (a % 2 == 0 && r < 2)
    ensures BitOr(a, r) == a + r
  {
    OrStep(a, r); OrStep(a / 2, r / 2); OrStep(a / 4, r / 4);
    OrZero(a / 2); OrZero(a / 8);
    assert a / 2 / 2 == a / 4 && a / 4 / 2 == a / 8;
  }

  lemma OrStep(a: nat, b: nat)
    ensures BitOr(a, b) == (if a % 2 == 1 || b % 2 == 1 then 1 else 0) + 2 * BitOr(a / 2, b / 2)
  {
  }

  lemma {:induction false} OrZero(a: nat)
    ensures BitOr(a, 0) == a
  {
    if a != 0 { OrZero(a / 2); }
  }
}
