/** The substitution table of AES is the one of FIPS 197, section 5.1.1: the inverse in
GF(2^8), 0 for 0, followed by an affine map.

The products are calculated on machine bytes, where the solver multiplies constants at
once; that calculation is proved to be GfMul first.
*/
module AesSBox {
  import opened Wrappers
  import opened Gf256
  import opened AesTables

  // ----- the definition

  /** The bits of 0x63. */
  const ADDED: Bits := [true, true, false, false, false, true, true, false]

  predicate Odd(a: bool, b: bool, c: bool, d: bool, e: bool, f: bool) { ((((a != b) != c) != d) != e) != f }

  predicate AffineBit(t: Bits, i: nat)
    requires i < 8
  {
    Odd(t[i], t[(i + 4) % 8], t[(i + 5) % 8], t[(i + 6) % 8], t[(i + 7) % 8], ADDED[i])
  }

  function Affine(t: Bits): Bits { seq(8, i requires 0 <= i < 8 => AffineBit(t, i)) }

  predicate Inverse(x: byte, y: byte) { if x == 0 then y == 0 else GfMul(x, y) == 1 }

  /** s is the image of x. */
  ghost predicate Image(x: byte, s: byte) { exists y: byte :: Inverse(x, y) && ToBits(s) == Affine(ToBits(y)) }

  // ----- machine bytes

  predicate Low(b: bv8) { b & 1 != 0 }

  function Half(b: bv8): bv8 { b >> 1 }

  function Sum(a: bv8, b: bv8): bv8 { a ^ b }

  /** The n low bits. */
  function LowBits(b: bv8, n: nat): (t: seq<bool>)
    ensures |t| == n
  {
    if n == 0 then [] else [Low(b)] + LowBits(Half(b), n - 1)
  }

  function BitsOf(b: bv8): Bits { LowBits(b, 8) }

  lemma HalfOf(b: bv8)
    ensures (b as int) / 2 == Half(b) as int
    ensures (b as int) % 2 == 1 <==> Low(b)
  {
    assert (b as int) % 2 == 1 <==> b & 1 == 1;
  }

  lemma {:induction false} DigitsOf(b: bv8, n: nat)
    ensures Digits(b as int, n) == LowBits(b, n)
    decreases n
  {
    hide Half, Low;
    if n > 0 {
      HalfOf(b);
      DigitsOf(Half(b), n - 1);
    }
  }

  lemma HalfOfSum(a: bv8, b: bv8)
    ensures Low(Sum(a, b)) == (Low(a) != Low(b)) && Half(Sum(a, b)) == Sum(Half(a), Half(b))
  {
  }

  lemma ToBitsOf(b: bv8)
    ensures ToBits(b as int) == BitsOf(b)
  {
    hide Digits, LowBits;
    DigitsOf(b, 8);
  }

  lemma {:induction false} BitsOfSum(a: bv8, b: bv8, n: nat)
    ensures forall i | 0 <= i < n :: LowBits(Sum(a, b), n)[i] == (LowBits(a, n)[i] != LowBits(b, n)[i])
    decreases n
  {
    hide Half, Low, Sum;
    if n > 0 {
      HalfOfSum(a, b);
      BitsOfSum(Half(a), Half(b), n - 1);
    }
  }

  lemma XorOf(a: bv8, b: bv8)
    ensures Xor(a as int, b as int) == Sum(a, b) as int
  {
    hide Xor, LowBits, Sum, Digits;
    XorBits(a as int, b as int);
    DigitsOf(a, 8);
    DigitsOf(b, 8);
    DigitsOf(Sum(a, b), 8);
    BitsOfSum(a, b, 8);
    assert Plus(BitsOf(a), BitsOf(b)) == BitsOf(Sum(a, b));
    SameBits(Xor(a as int, b as int), Sum(a, b) as int);
  }

  /** Multiplication by x. */
  function Double(b: bv8): bv8 { Sum(b << 1, if b & 128 == 0 then 0 else 0x1b) }

  lemma ShiftOf(b: bv8)
    ensures 2 * (b as int) % 256 == (b << 1) as int
    ensures (b as int) / 128 == if b & 128 == 0 then 0 else 1
  {
  }

  lemma DoubleOf(b: bv8)
    ensures XTime(b as int) == Double(b) as int
  {
    hide Xor, Sum;
    ShiftOf(b);
    XorOf(b << 1, if b & 128 == 0 then 0 else 0x1b);
  }

  function Part(y: bv8, x: bv8): bv8 { if Low(y) then x else 0 }

  /** The product, from the n low bits of y. */
  function Product(x: bv8, y: bv8, n: nat): bv8
    decreases n
  {
    if n == 0 then 0 else Sum(Part(y, x), Product(Double(x), Half(y), n - 1))
  }

  lemma {:induction false} ProductOf(x: bv8, y: bv8, n: nat)
    requires y as int < Pow2(n)
    ensures GfMul(x as int, y as int) == Product(x, y, n) as int
    decreases n
  {
    hide Xor, XTime, Sum, Half, Low, Double;
    SumOfNothing();
    if n > 0 {
      HalfOf(y);
      DoubleOf(x);
      ProductOf(Double(x), Half(y), n - 1);
      XorOf(Part(y, x), Product(Double(x), Half(y), n - 1));
      if y == 0 {
        ProductOf(Double(x), 0, n - 1);
      }
    }
  }

  /** The same, unrolled. */
  function Product8(x: bv8, y: bv8): bv8 {
    var x1, y1 := Double(x), Half(y);
    var x2, y2 := Double(x1), Half(y1);
    var x3, y3 := Double(x2), Half(y2);
    var x4, y4 := Double(x3), Half(y3);
    var x5, y5 := Double(x4), Half(y4);
    var x6, y6 := Double(x5), Half(y5);
    var x7, y7 := Double(x6), Half(y6);
    Sum(Part(y, x), Sum(Part(y1, x1), Sum(Part(y2, x2), Sum(Part(y3, x3),
    Sum(Part(y4, x4), Sum(Part(y5, x5), Sum(Part(y6, x6), Sum(Part(y7, x7), 0))))))))
  }

  lemma EightSteps(x: bv8, y: bv8)
    ensures Product8(x, y) == Product(x, y, 8)
  {
    hide Double, Half, Sum, Part;
    var x1, y1 := Double(x), Half(y);
    var x2, y2 := Double(x1), Half(y1);
    var x3, y3 := Double(x2), Half(y2);
    var x4, y4 := Double(x3), Half(y3);
    FourSteps(x4, y4, 0);
    FourSteps(x, y, 4);
  }

  lemma FourSteps(x: bv8, y: bv8, n: nat)
    ensures var x1, y1 := Double(x), Half(y);
            var x2, y2 := Double(x1), Half(y1);
            var x3, y3 := Double(x2), Half(y2);
            Product(x, y, n + 4)
            == Sum(Part(y, x), Sum(Part(y1, x1),
                                   Sum(Part(y2, x2), Sum(Part(y3, x3), Product(Double(x3), Half(y3), n)))))
  {
    hide Double, Half, Sum, Part;
    var x1, y1 := Double(x), Half(y);
    var x2, y2 := Double(x1), Half(y1);
    var x3, y3 := Double(x2), Half(y2);
    assert Product(x3, y3, n + 1) == Sum(Part(y3, x3), Product(Double(x3), Half(y3), n));
    assert Product(x2, y2, n + 2) == Sum(Part(y2, x2), Product(x3, y3, n + 1));
    assert Product(x1, y1, n + 3) == Sum(Part(y1, x1), Product(x2, y2, n + 2));
  }

  lemma SumOfNothing()
    ensures Sum(0, 0) == 0 && !Low(0) && Half(0) == 0
  {
  }

  /** The inverse of the affine map. */
  function Unaffine(s: bv8): bv8 { s.RotateLeft(1) ^ s.RotateLeft(3) ^ s.RotateLeft(6) ^ 5 }

  /** Each byte of h is the half of the one before. */
  predicate Halving(h: seq<bv8>) { h != [] && forall i | 0 < i < |h| :: h[i] == Half(h[i - 1]) }

  lemma {:induction false} LowBitsOf(h: seq<bv8>)
    requires Halving(h)
    ensures forall i | 0 <= i < |h| :: LowBits(h[0], |h|)[i] == Low(h[i])
    decreases |h|
  {
    hide Half, Low;
    var n := |h|;
    if n > 1 {
      var tail := h[1..];
      LowBitsOf(tail);
      assert LowBits(h[0], n) == [Low(h[0])] + LowBits(tail[0], n - 1);
    }
  }

  /** The affine map bit by bit: y and s with their halves. */
  lemma AffineBits(s: seq<bv8>, y: seq<bv8>)
    requires Halving(s) && Halving(y) && |s| == |y| == 8 && y[0] == Unaffine(s[0])
    ensures Low(s[0]) == Odd(Low(y[0]), Low(y[4]), Low(y[5]), Low(y[6]), Low(y[7]), true)
    ensures Low(s[1]) == Odd(Low(y[1]), Low(y[5]), Low(y[6]), Low(y[7]), Low(y[0]), true)
    ensures Low(s[2]) == Odd(Low(y[2]), Low(y[6]), Low(y[7]), Low(y[0]), Low(y[1]), false)
    ensures Low(s[3]) == Odd(Low(y[3]), Low(y[7]), Low(y[0]), Low(y[1]), Low(y[2]), false)
    ensures Low(s[4]) == Odd(Low(y[4]), Low(y[0]), Low(y[1]), Low(y[2]), Low(y[3]), false)
    ensures Low(s[5]) == Odd(Low(y[5]), Low(y[1]), Low(y[2]), Low(y[3]), Low(y[4]), true)
    ensures Low(s[6]) == Odd(Low(y[6]), Low(y[2]), Low(y[3]), Low(y[4]), Low(y[5]), true)
    ensures Low(s[7]) == Odd(Low(y[7]), Low(y[3]), Low(y[4]), Low(y[5]), Low(y[6]), false)
  {
  }

  lemma AffineBitByBit(t: Bits)
    ensures AffineBit(t, 0) == Odd(t[0], t[4], t[5], t[6], t[7], true)
    ensures AffineBit(t, 1) == Odd(t[1], t[5], t[6], t[7], t[0], true)
    ensures AffineBit(t, 2) == Odd(t[2], t[6], t[7], t[0], t[1], false)
    ensures AffineBit(t, 3) == Odd(t[3], t[7], t[0], t[1], t[2], false)
    ensures AffineBit(t, 4) == Odd(t[4], t[0], t[1], t[2], t[3], false)
    ensures AffineBit(t, 5) == Odd(t[5], t[1], t[2], t[3], t[4], true)
    ensures AffineBit(t, 6) == Odd(t[6], t[2], t[3], t[4], t[5], true)
    ensures AffineBit(t, 7) == Odd(t[7], t[3], t[4], t[5], t[6], false)
  {
    hide Odd;
  }

  lemma AffineIs(t: Bits, u: Bits)
    requires AffineBit(t, 0) == u[0] && AffineBit(t, 1) == u[1] && AffineBit(t, 2) == u[2] && AffineBit(t, 3) == u[3]
    requires AffineBit(t, 4) == u[4] && AffineBit(t, 5) == u[5] && AffineBit(t, 6) == u[6] && AffineBit(t, 7) == u[7]
    ensures Affine(t) == u
  {
    hide AffineBit;
  }

  lemma HalvesOf(b: bv8) returns (h: seq<bv8>)
    ensures Halving(h) && |h| == 8 && h[0] == b
  {
    hide Half;
    var b1 := Half(b);
    var b2 := Half(b1);
    var b3 := Half(b2);
    var b4 := Half(b3);
    var b5 := Half(b4);
    var b6 := Half(b5);
    h := [b, b1, b2, b3, b4, b5, b6, Half(b6)];
  }

  lemma UnaffineInverts(s: bv8)
    ensures Affine(BitsOf(Unaffine(s))) == BitsOf(s)
  {
    hide Halving, Low, LowBits, Unaffine, Odd, Affine, AffineBit;
    var y := Unaffine(s);
    var hs := HalvesOf(s);
    var hy := HalvesOf(y);
    LowBitsOf(hs);
    LowBitsOf(hy);
    AffineBits(hs, hy);
    AffineBitByBit(BitsOf(y));
    AffineIs(BitsOf(y), BitsOf(s));
  }

  // ----- the table

  lemma ProductOfOne(x: bv8, y: bv8)
    requires Product8(x, y) == 1
    ensures GfMul(x as int, y as int) == 1
  {
    hide GfMul, Product8, Product;
    Pow2Of8();
    ProductOf(x, y, 8);
    EightSteps(x, y);
  }

  lemma AffineOfByte(s: bv8)
    ensures ToBits(s as int) == Affine(ToBits(Unaffine(s) as int))
  {
    hide ToBits, Affine, Unaffine, BitsOf;
    UnaffineInverts(s);
    ToBitsOf(Unaffine(s));
    ToBitsOf(s);
  }

  /** A table entry, by one product of machine bytes. */
  lemma Entry(x: bv8, s: bv8)
    requires x != 0 && Product8(x, Unaffine(s)) == 1
    ensures Image(x as int, s as int)
  {
    hide GfMul, ToBits, Affine, Product8, Unaffine;
    ProductOfOne(x, Unaffine(s));
    AffineOfByte(s);
    assert x as int != 0;
    assert Inverse(x as int, Unaffine(s) as int);
  }

  lemma EntryOfZero()
    ensures Image(0, 0x63)
  {
    hide ToBits, Affine;
    assert Unaffine(0x63) == 0;
    AffineOfByte(0x63);
    assert Inverse(0, 0) && ToBits(0x63) == Affine(ToBits(0));
  }

  lemma Row0(x: byte)
    requires 0x00 <= x <= 0x0f
    ensures Image(x, SBox0(x))
  {
    hide Image;
    EntryOfZero(); Entry(0x01, 0x7c); Entry(0x02, 0x77); Entry(0x03, 0x7b);
    Entry(0x04, 0xf2); Entry(0x05, 0x6b); Entry(0x06, 0x6f); Entry(0x07, 0xc5);
    Entry(0x08, 0x30); Entry(0x09, 0x01); Entry(0x0a, 0x67); Entry(0x0b, 0x2b);
    Entry(0x0c, 0xfe); Entry(0x0d, 0xd7); Entry(0x0e, 0xab); Entry(0x0f, 0x76);
  }

  lemma Row1(x: byte)
    requires 0x10 <= x <= 0x1f
    ensures Image(x, SBox1(x))
  {
    hide Image;
    Entry(0x10, 0xca); Entry(0x11, 0x82); Entry(0x12, 0xc9); Entry(0x13, 0x7d);
    Entry(0x14, 0xfa); Entry(0x15, 0x59); Entry(0x16, 0x47); Entry(0x17, 0xf0);
    Entry(0x18, 0xad); Entry(0x19, 0xd4); Entry(0x1a, 0xa2); Entry(0x1b, 0xaf);
    Entry(0x1c, 0x9c); Entry(0x1d, 0xa4); Entry(0x1e, 0x72); Entry(0x1f, 0xc0);
  }

  lemma Row2(x: byte)
    requires 0x20 <= x <= 0x2f
    ensures Image(x, SBox2(x))
  {
    hide Image;
    Entry(0x20, 0xb7); Entry(0x21, 0xfd); Entry(0x22, 0x93); Entry(0x23, 0x26);
    Entry(0x24, 0x36); Entry(0x25, 0x3f); Entry(0x26, 0xf7); Entry(0x27, 0xcc);
    Entry(0x28, 0x34); Entry(0x29, 0xa5); Entry(0x2a, 0xe5); Entry(0x2b, 0xf1);
    Entry(0x2c, 0x71); Entry(0x2d, 0xd8); Entry(0x2e, 0x31); Entry(0x2f, 0x15);
  }

  lemma Row3(x: byte)
    requires 0x30 <= x <= 0x3f
    ensures Image(x, SBox3(x))
  {
    hide Image;
    Entry(0x30, 0x04); Entry(0x31, 0xc7); Entry(0x32, 0x23); Entry(0x33, 0xc3);
    Entry(0x34, 0x18); Entry(0x35, 0x96); Entry(0x36, 0x05); Entry(0x37, 0x9a);
    Entry(0x38, 0x07); Entry(0x39, 0x12); Entry(0x3a, 0x80); Entry(0x3b, 0xe2);
    Entry(0x3c, 0xeb); Entry(0x3d, 0x27); Entry(0x3e, 0xb2); Entry(0x3f, 0x75);
  }

  lemma Row4(x: byte)
    requires 0x40 <= x <= 0x4f
    ensures Image(x, SBox4(x))
  {
    hide Image;
    Entry(0x40, 0x09); Entry(0x41, 0x83); Entry(0x42, 0x2c); Entry(0x43, 0x1a);
    Entry(0x44, 0x1b); Entry(0x45, 0x6e); Entry(0x46, 0x5a); Entry(0x47, 0xa0);
    Entry(0x48, 0x52); Entry(0x49, 0x3b); Entry(0x4a, 0xd6); Entry(0x4b, 0xb3);
    Entry(0x4c, 0x29); Entry(0x4d, 0xe3); Entry(0x4e, 0x2f); Entry(0x4f, 0x84);
  }

  lemma Row5(x: byte)
    requires 0x50 <= x <= 0x5f
    ensures Image(x, SBox5(x))
  {
    hide Image;
    Entry(0x50, 0x53); Entry(0x51, 0xd1); Entry(0x52, 0x00); Entry(0x53, 0xed);
    Entry(0x54, 0x20); Entry(0x55, 0xfc); Entry(0x56, 0xb1); Entry(0x57, 0x5b);
    Entry(0x58, 0x6a); Entry(0x59, 0xcb); Entry(0x5a, 0xbe); Entry(0x5b, 0x39);
    Entry(0x5c, 0x4a); Entry(0x5d, 0x4c); Entry(0x5e, 0x58); Entry(0x5f, 0xcf);
  }

  lemma Row6(x: byte)
    requires 0x60 <= x <= 0x6f
    ensures Image(x, SBox6(x))
  {
    hide Image;
    Entry(0x60, 0xd0); Entry(0x61, 0xef); Entry(0x62, 0xaa); Entry(0x63, 0xfb);
    Entry(0x64, 0x43); Entry(0x65, 0x4d); Entry(0x66, 0x33); Entry(0x67, 0x85);
    Entry(0x68, 0x45); Entry(0x69, 0xf9); Entry(0x6a, 0x02); Entry(0x6b, 0x7f);
    Entry(0x6c, 0x50); Entry(0x6d, 0x3c); Entry(0x6e, 0x9f); Entry(0x6f, 0xa8);
  }

  lemma Row7(x: byte)
    requires 0x70 <= x <= 0x7f
    ensures Image(x, SBox7(x))
  {
    hide Image;
    Entry(0x70, 0x51); Entry(0x71, 0xa3); Entry(0x72, 0x40); Entry(0x73, 0x8f);
    Entry(0x74, 0x92); Entry(0x75, 0x9d); Entry(0x76, 0x38); Entry(0x77, 0xf5);
    Entry(0x78, 0xbc); Entry(0x79, 0xb6); Entry(0x7a, 0xda); Entry(0x7b, 0x21);
    Entry(0x7c, 0x10); Entry(0x7d, 0xff); Entry(0x7e, 0xf3); Entry(0x7f, 0xd2);
  }

  lemma Row8(x: byte)
    requires 0x80 <= x <= 0x8f
    ensures Image(x, SBox8(x))
  {
    hide Image;
    Entry(0x80, 0xcd); Entry(0x81, 0x0c); Entry(0x82, 0x13); Entry(0x83, 0xec);
    Entry(0x84, 0x5f); Entry(0x85, 0x97); Entry(0x86, 0x44); Entry(0x87, 0x17);
    Entry(0x88, 0xc4); Entry(0x89, 0xa7); Entry(0x8a, 0x7e); Entry(0x8b, 0x3d);
    Entry(0x8c, 0x64); Entry(0x8d, 0x5d); Entry(0x8e, 0x19); Entry(0x8f, 0x73);
  }

  lemma Row9(x: byte)
    requires 0x90 <= x <= 0x9f
    ensures Image(x, SBox9(x))
  {
    hide Image;
    Entry(0x90, 0x60); Entry(0x91, 0x81); Entry(0x92, 0x4f); Entry(0x93, 0xdc);
    Entry(0x94, 0x22); Entry(0x95, 0x2a); Entry(0x96, 0x90); Entry(0x97, 0x88);
    Entry(0x98, 0x46); Entry(0x99, 0xee); Entry(0x9a, 0xb8); Entry(0x9b, 0x14);
    Entry(0x9c, 0xde); Entry(0x9d, 0x5e); Entry(0x9e, 0x0b); Entry(0x9f, 0xdb);
  }

  lemma RowA(x: byte)
    requires 0xa0 <= x <= 0xaf
    ensures Image(x, SBoxA(x))
  {
    hide Image;
    Entry(0xa0, 0xe0); Entry(0xa1, 0x32); Entry(0xa2, 0x3a); Entry(0xa3, 0x0a);
    Entry(0xa4, 0x49); Entry(0xa5, 0x06); Entry(0xa6, 0x24); Entry(0xa7, 0x5c);
    Entry(0xa8, 0xc2); Entry(0xa9, 0xd3); Entry(0xaa, 0xac); Entry(0xab, 0x62);
    Entry(0xac, 0x91); Entry(0xad, 0x95); Entry(0xae, 0xe4); Entry(0xaf, 0x79);
  }

  lemma RowB(x: byte)
    requires 0xb0 <= x <= 0xbf
    ensures Image(x, SBoxB(x))
  {
    hide Image;
    Entry(0xb0, 0xe7); Entry(0xb1, 0xc8); Entry(0xb2, 0x37); Entry(0xb3, 0x6d);
    Entry(0xb4, 0x8d); Entry(0xb5, 0xd5); Entry(0xb6, 0x4e); Entry(0xb7, 0xa9);
    Entry(0xb8, 0x6c); Entry(0xb9, 0x56); Entry(0xba, 0xf4); Entry(0xbb, 0xea);
    Entry(0xbc, 0x65); Entry(0xbd, 0x7a); Entry(0xbe, 0xae); Entry(0xbf, 0x08);
  }

  lemma RowC(x: byte)
    requires 0xc0 <= x <= 0xcf
    ensures Image(x, SBoxC(x))
  {
    hide Image;
    Entry(0xc0, 0xba); Entry(0xc1, 0x78); Entry(0xc2, 0x25); Entry(0xc3, 0x2e);
    Entry(0xc4, 0x1c); Entry(0xc5, 0xa6); Entry(0xc6, 0xb4); Entry(0xc7, 0xc6);
    Entry(0xc8, 0xe8); Entry(0xc9, 0xdd); Entry(0xca, 0x74); Entry(0xcb, 0x1f);
    Entry(0xcc, 0x4b); Entry(0xcd, 0xbd); Entry(0xce, 0x8b); Entry(0xcf, 0x8a);
  }

  lemma RowD(x: byte)
    requires 0xd0 <= x <= 0xdf
    ensures Image(x, SBoxD(x))
  {
    hide Image;
    Entry(0xd0, 0x70); Entry(0xd1, 0x3e); Entry(0xd2, 0xb5); Entry(0xd3, 0x66);
    Entry(0xd4, 0x48); Entry(0xd5, 0x03); Entry(0xd6, 0xf6); Entry(0xd7, 0x0e);
    Entry(0xd8, 0x61); Entry(0xd9, 0x35); Entry(0xda, 0x57); Entry(0xdb, 0xb9);
    Entry(0xdc, 0x86); Entry(0xdd, 0xc1); Entry(0xde, 0x1d); Entry(0xdf, 0x9e);
  }

  lemma RowE(x: byte)
    requires 0xe0 <= x <= 0xef
    ensures Image(x, SBoxE(x))
  {
    hide Image;
    Entry(0xe0, 0xe1); Entry(0xe1, 0xf8); Entry(0xe2, 0x98); Entry(0xe3, 0x11);
    Entry(0xe4, 0x69); Entry(0xe5, 0xd9); Entry(0xe6, 0x8e); Entry(0xe7, 0x94);
    Entry(0xe8, 0x9b); Entry(0xe9, 0x1e); Entry(0xea, 0x87); Entry(0xeb, 0xe9);
    Entry(0xec, 0xce); Entry(0xed, 0x55); Entry(0xee, 0x28); Entry(0xef, 0xdf);
  }

  lemma RowF(x: byte)
    requires 0xf0 <= x <= 0xff
    ensures Image(x, SBoxF(x))
  {
    hide Image;
    Entry(0xf0, 0x8c); Entry(0xf1, 0xa1); Entry(0xf2, 0x89); Entry(0xf3, 0x0d);
    Entry(0xf4, 0xbf); Entry(0xf5, 0xe6); Entry(0xf6, 0x42); Entry(0xf7, 0x68);
    Entry(0xf8, 0x41); Entry(0xf9, 0x99); Entry(0xfa, 0x2d); Entry(0xfb, 0x0f);
    Entry(0xfc, 0xb0); Entry(0xfd, 0x54); Entry(0xfe, 0xbb); Entry(0xff, 0x16);
  }

  /** The whole table. */
  lemma SBoxIsAffineOfInverse(x: byte)
    ensures exists y: byte :: Inverse(x, y) && ToBits(SBox(x)) == Affine(ToBits(y))
  {
    hide Inverse, ToBits, Affine;
    hide SBox0, SBox1, SBox2, SBox3, SBox4, SBox5, SBox6, SBox7, SBox8, SBox9, SBoxA, SBoxB, SBoxC, SBoxD, SBoxE, SBoxF;
    if x < 0x10 {
      Row0(x);
    } else if x < 0x20 {
      Row1(x);
    } else if x < 0x30 {
      Row2(x);
    } else if x < 0x40 {
      Row3(x);
    } else if x < 0x50 {
      Row4(x);
    } else if x < 0x60 {
      Row5(x);
    } else if x < 0x70 {
      Row6(x);
    } else if x < 0x80 {
      Row7(x);
    } else if x < 0x90 {
      Row8(x);
    } else if x < 0xa0 {
      Row9(x);
    } else if x < 0xb0 {
      RowA(x);
    } else if x < 0xc0 {
      RowB(x);
    } else if x < 0xd0 {
      RowC(x);
    } else if x < 0xe0 {
      RowD(x);
    } else if x < 0xf0 {
      RowE(x);
    } else {
      RowF(x);
    }
    assert Image(x, SBox(x));
  }
}
