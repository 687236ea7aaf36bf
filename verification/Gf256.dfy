/** The byte arithmetic of AES: addition and multiplication in GF(2^8).

A byte is an integer below 256, as in the program.  Its bits are a sequence of
eight booleans, on which addition is bitwise inequality and multiplication by x
a shift; every law below is proved there and carried over to bytes.
*/
module Gf256 {
  import opened Wrappers

  /** The bits of a byte, the least significant first. */
  type Bits = s: seq<bool> | |s| == 8 witness [false, false, false, false, false, false, false, false]

  const ZERO_BITS: Bits := [false, false, false, false, false, false, false, false]

  function Pow2(n: nat): (r: nat)
    ensures r > 0
  {
    if n == 0 then 1 else 2 * Pow2(n - 1)
  }

  /** The number whose binary digits are t. */
  function Number(t: seq<bool>): nat {
    if t == [] then 0 else 2 * Number(t[1..]) + if t[0] then 1 else 0
  }

  /** The n low binary digits of x. */
  function Digits(x: nat, n: nat): (t: seq<bool>)
    ensures |t| == n
  {
    if n == 0 then [] else [x % 2 == 1] + Digits(x / 2, n - 1)
  }

  lemma {:induction false} NumberBelow(t: seq<bool>)
    ensures Number(t) < Pow2(|t|)
  {
    if t != [] {
      NumberBelow(t[1..]);
    }
  }

  lemma {:induction false} DigitsOfNumber(t: seq<bool>)
    ensures Digits(Number(t), |t|) == t
  {
    if t != [] {
      DigitsOfNumber(t[1..]);
      assert Number(t) / 2 == Number(t[1..]);
    }
  }

  lemma {:induction false} NumberOfDigits(x: nat, n: nat)
    requires x < Pow2(n)
    ensures Number(Digits(x, n)) == x
  {
    if n != 0 {
      NumberOfDigits(x / 2, n - 1);
      assert Digits(x, n)[1..] == Digits(x / 2, n - 1);
    }
  }

  lemma {:induction false} NumberSnoc(s: seq<bool>, b: bool)
    ensures Number(s + [b]) == Number(s) + if b then Pow2(|s|) else 0
  {
    if s == [] {
      assert [b][1..] == [];
    } else {
      NumberSnoc(s[1..], b);
      assert (s + [b])[1..] == s[1..] + [b];
    }
  }

  lemma Pow2Of8()
    ensures Pow2(7) == 128 && Pow2(8) == 256
  {
    assert Pow2(4) == 16;
    assert Pow2(7) == 128;
  }

  function ToByte(t: Bits): byte {
    NumberBelow(t);
    Pow2Of8();
    Number(t)
  }

  function ToBits(x: byte): Bits {
    Digits(x, 8)
  }

  lemma BitsOfByte(t: Bits)
    ensures ToBits(ToByte(t)) == t
  {
    DigitsOfNumber(t);
  }

  lemma ByteOfBits(x: byte)
    ensures ToByte(ToBits(x)) == x
  {
    Pow2Of8();
    NumberOfDigits(x, 8);
  }

  lemma SameBits(x: byte, y: byte)
    requires ToBits(x) == ToBits(y)
    ensures x == y
  {
    hide ToBits, ToByte;
    ByteOfBits(x);
    ByteOfBits(y);
  }

  // ----- addition and multiplication by x on bits

  function Plus(s: Bits, t: Bits): Bits {
    seq(8, i requires 0 <= i < 8 => s[i] != t[i])
  }

  function Shifted(t: Bits): Bits {
    [false] + t[..7]
  }

  /** The bits of 0x1b, what x^8 is modulo x^8 + x^4 + x^3 + x + 1. */
  const REDUCTION: Bits := [true, true, false, true, true, false, false, false]

  /** Multiplication by x. */
  function X(t: Bits): Bits {
    Plus(Shifted(t), if t[7] then REDUCTION else ZERO_BITS)
  }

  lemma XPlus(s: Bits, t: Bits)
    ensures X(Plus(s, t)) == Plus(X(s), X(t))
  {
  }

  lemma PlusZero(s: Bits)
    ensures Plus(s, ZERO_BITS) == s == Plus(ZERO_BITS, s)
  {
  }

  lemma PlusSwap(a: Bits, b: Bits, c: Bits, d: Bits)
    ensures Plus(Plus(a, b), Plus(c, d)) == Plus(Plus(a, c), Plus(b, d))
  {
  }

  lemma PlusAssoc(a: Bits, b: Bits, c: Bits)
    ensures Plus(Plus(a, b), c) == Plus(a, Plus(b, c))
  {
  }

  function Sum4(a: Bits, b: Bits, c: Bits, d: Bits): Bits {
    Plus(Plus(Plus(a, b), c), d)
  }

  lemma Sum4Plus(a: Bits, b: Bits, c: Bits, d: Bits, e: Bits, f: Bits, g: Bits, h: Bits)
    ensures Plus(Sum4(a, b, c, d), Sum4(e, f, g, h)) == Sum4(Plus(a, e), Plus(b, f), Plus(c, g), Plus(d, h))
  {
    hide Plus;
    PlusSwap(Plus(Plus(a, b), c), d, Plus(Plus(e, f), g), h);
    PlusSwap(Plus(a, b), c, Plus(e, f), g);
    PlusSwap(a, b, e, f);
  }

  // ----- the same on bytes

  function Xor(a: byte, b: byte): byte {
    ToByte(Plus(ToBits(a), ToBits(b)))
  }

  /** The source's XTime: shift left by one, keep eight bits, and add 0x1b when
      a one was shifted out. */
  function XTime(x: byte): byte {
    Xor(2 * x % 256, x / 128 * 0x1b)
  }

  lemma XorBits(a: byte, b: byte)
    ensures ToBits(Xor(a, b)) == Plus(ToBits(a), ToBits(b))
  {
    hide ToBits, ToByte, Plus;
    BitsOfByte(Plus(ToBits(a), ToBits(b)));
  }

  lemma ShiftedByte(t: Bits)
    ensures 2 * ToByte(t) == ToByte(Shifted(t)) + if t[7] then 256 else 0
    ensures ToByte(t) >= 128 <==> t[7]
  {
    assert t == t[..7] + [t[7]];
    NumberSnoc(t[..7], t[7]);
    NumberBelow(t[..7]);
    Pow2Of8();
    assert Shifted(t)[1..] == t[..7];
  }

  lemma ShiftedBits(x: byte)
    ensures ToBits(2 * x % 256) == Shifted(ToBits(x))
    ensures x / 128 == if ToBits(x)[7] then 1 else 0
  {
    hide ToBits, ToByte, Shifted;
    ByteOfBits(x);
    ShiftedByte(ToBits(x));
    BitsOfByte(Shifted(ToBits(x)));
  }

  lemma ReductionBits()
    ensures ToBits(0) == ZERO_BITS
    ensures ToBits(0x1b) == REDUCTION
  {
  }

  /** XTime is multiplication by x. */
  lemma XTimeBits(x: byte)
    ensures ToBits(XTime(x)) == X(ToBits(x))
  {
    hide ToBits, Xor, Plus;
    ShiftedBits(x);
    XorBits(2 * x % 256, x / 128 * 0x1b);
    ReductionBits();
  }

  lemma XorCancels(a: byte, b: byte)
    ensures Xor(Xor(a, b), b) == a
  {
    XorBits(a, b);
    XorBits(Xor(a, b), b);
    SameBits(Xor(Xor(a, b), b), a);
  }

  /** The product of a byte and a polynomial given as a number, by repeated
      XTime: section 4.2.1 of FIPS 197. */
  function GfMul(x: byte, y: nat): byte
    decreases y
  {
    if y == 0 then 0 else Xor(if y % 2 == 1 then x else 0, GfMul(XTime(x), y / 2))
  }
}
