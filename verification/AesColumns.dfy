/** Column mixing: the matrices of sections 5.1.3 and 5.3.3 of FIPS 197 and the
fact that the second one undoes the first. */
module AesColumns {
  import opened Wrappers
  import opened Gf256

  datatype Column = Column(c0: byte, c1: byte, c2: byte, c3: byte)

  function Xor4(a: byte, b: byte, c: byte, d: byte): byte {
    Xor(Xor(Xor(a, b), c), d)
  }

  /** Multiplication by the matrix of 5.1.3. */
  function Mix(c: Column): Column {
    Column(Xor4(GfMul(c.c0, 2), GfMul(c.c1, 3), c.c2, c.c3),
           Xor4(c.c0, GfMul(c.c1, 2), GfMul(c.c2, 3), c.c3),
           Xor4(c.c0, c.c1, GfMul(c.c2, 2), GfMul(c.c3, 3)),
           Xor4(GfMul(c.c0, 3), c.c1, c.c2, GfMul(c.c3, 2)))
  }

  /** Multiplication by the matrix of 5.3.3. */
  function InvMix(c: Column): Column {
    Column(Xor4(GfMul(c.c0, 0x0e), GfMul(c.c1, 0x0b), GfMul(c.c2, 0x0d), GfMul(c.c3, 0x09)),
           Xor4(GfMul(c.c0, 0x09), GfMul(c.c1, 0x0e), GfMul(c.c2, 0x0b), GfMul(c.c3, 0x0d)),
           Xor4(GfMul(c.c0, 0x0d), GfMul(c.c1, 0x09), GfMul(c.c2, 0x0e), GfMul(c.c3, 0x0b)),
           Xor4(GfMul(c.c0, 0x0b), GfMul(c.c1, 0x0d), GfMul(c.c2, 0x09), GfMul(c.c3, 0x0e)))
  }

  // ----- multiplication on bits, and its additivity

  function Times(t: Bits, y: nat): Bits
    decreases y
  {
    if y == 0 then ZERO_BITS else Plus(if y % 2 == 1 then t else ZERO_BITS, Times(X(t), y / 2))
  }

  lemma {:induction false} GfMulBits(x: byte, y: nat)
    ensures ToBits(GfMul(x, y)) == Times(ToBits(x), y)
    decreases y
  {
    hide ToBits, Xor, XTime, Plus, X;
    ReductionBits();
    if y != 0 {
      XorBits(if y % 2 == 1 then x else 0, GfMul(XTime(x), y / 2));
      XTimeBits(x);
      GfMulBits(XTime(x), y / 2);
    }
  }

  lemma {:induction false} TimesPlus(s: Bits, t: Bits, y: nat)
    ensures Times(Plus(s, t), y) == Plus(Times(s, y), Times(t, y))
    decreases y
  {
    hide X, Plus;
    PlusZero(ZERO_BITS);
    if y != 0 {
      XPlus(s, t);
      TimesPlus(X(s), X(t), y / 2);
      var b := y % 2 == 1;
      PlusSwap(if b then s else ZERO_BITS, if b then t else ZERO_BITS, Times(X(s), y / 2), Times(X(t), y / 2));
    }
  }

  lemma TimesSum4(a: Bits, b: Bits, c: Bits, d: Bits, y: nat)
    ensures Times(Sum4(a, b, c, d), y) == Sum4(Times(a, y), Times(b, y), Times(c, y), Times(d, y))
  {
    hide Plus, Times;
    TimesPlus(Plus(Plus(a, b), c), d, y);
    TimesPlus(Plus(a, b), c, y);
    TimesPlus(a, b, y);
  }

  /** The products with the entries of the two matrices, written out. */
  lemma SmallProducts(t: Bits)
    ensures Times(t, 2) == X(t)
    ensures Times(t, 3) == Plus(t, X(t))
    ensures Times(t, 9) == Plus(t, X(X(X(t))))
    ensures Times(t, 0x0b) == Plus(t, Plus(X(t), X(X(X(t)))))
    ensures Times(t, 0x0d) == Plus(t, Plus(X(X(t)), X(X(X(t)))))
    ensures Times(t, 0x0e) == Plus(X(t), Plus(X(X(t)), X(X(X(t)))))
  {
    hide X, Plus;
    var x1, x2, x3 := X(t), X(X(t)), X(X(X(t)));
    PlusZero(t); PlusZero(x1); PlusZero(x2); PlusZero(x3);
    PlusZero(Plus(x1, Plus(x2, x3)));
    PlusZero(Plus(x2, x3));
    assert Times(X(x3), 0) == Times(x1, 0) == Times(x2, 0) == ZERO_BITS;
    assert Times(x3, 1) == x3 && Times(x1, 1) == x1;
    assert Times(x2, 2) == x3 && Times(x2, 3) == Plus(x2, x3);
    assert Times(x1, 4) == x3 && Times(x1, 5) == Plus(x1, x3) && Times(x1, 6) == Plus(x2, x3)
      && Times(x1, 7) == Plus(x1, Plus(x2, x3));
  }

  /** The four polynomial identities behind the inverse matrix. */
  lemma Cancel(a: Bits, a1: Bits, a2: Bits, a3: Bits, a4: Bits)
    ensures var n, b, d, e := Plus(a, a3), Plus(a, Plus(a1, a3)), Plus(a, Plus(a2, a3)), Plus(a1, Plus(a2, a3));
            var n1, b1, d1, e1 := Plus(a1, a4), Plus(a1, Plus(a2, a4)), Plus(a1, Plus(a3, a4)), Plus(a2, Plus(a3, a4));
            && Sum4(e1, b, d, Plus(n, n1)) == a
            && Sum4(Plus(e, e1), b1, d, n) == ZERO_BITS
            && Sum4(e, Plus(b, b1), d1, n) == ZERO_BITS
            && Sum4(e, b, Plus(d, d1), n1) == ZERO_BITS
  {
  }

  /** One byte through both matrices: the row 0e 0b 0d 09 against each column
      of 02 03 01 01. */
  lemma ByteThrough(a: Bits)
    ensures Sum4(Times(Times(a, 2), 0x0e), Times(a, 0x0b), Times(a, 0x0d), Times(Times(a, 3), 0x09)) == a
    ensures Sum4(Times(Times(a, 3), 0x0e), Times(Times(a, 2), 0x0b), Times(a, 0x0d), Times(a, 0x09)) == ZERO_BITS
    ensures Sum4(Times(a, 0x0e), Times(Times(a, 3), 0x0b), Times(Times(a, 2), 0x0d), Times(a, 0x09)) == ZERO_BITS
    ensures Sum4(Times(a, 0x0e), Times(a, 0x0b), Times(Times(a, 3), 0x0d), Times(Times(a, 2), 0x09)) == ZERO_BITS
  {
    hide X, Plus, Times, Sum4;
    SmallProducts(a);
    SmallProducts(X(a));
    TimesPlus(a, X(a), 0x09); TimesPlus(a, X(a), 0x0b); TimesPlus(a, X(a), 0x0d); TimesPlus(a, X(a), 0x0e);
    Cancel(a, X(a), X(X(a)), X(X(X(a))), X(X(X(X(a)))));
  }

  function MixRow(w: Bits, x: Bits, y: Bits, z: Bits): Bits {
    Sum4(Times(w, 2), Times(x, 3), y, z)
  }

  function UnmixRow(p: Bits, q: Bits, r: Bits, s: Bits): Bits {
    Sum4(Times(p, 0x0e), Times(q, 0x0b), Times(r, 0x0d), Times(s, 0x09))
  }

  lemma Rotate4(a: Bits, b: Bits, c: Bits, d: Bits)
    ensures Sum4(a, b, c, d) == Sum4(b, c, d, a)
  {
  }

  lemma Sum4Square(a: Bits, b: Bits, c: Bits, d: Bits, e: Bits, f: Bits, g: Bits, h: Bits,
                   i: Bits, j: Bits, k: Bits, l: Bits, m: Bits, n: Bits, o: Bits, p: Bits)
    ensures Sum4(Sum4(a, b, c, d), Sum4(e, f, g, h), Sum4(i, j, k, l), Sum4(m, n, o, p))
         == Sum4(Sum4(a, e, i, m), Sum4(b, f, j, n), Sum4(c, g, k, o), Sum4(d, h, l, p))
  {
    hide Plus;
    Sum4Plus(a, b, c, d, e, f, g, h);
    Sum4Plus(Plus(a, e), Plus(b, f), Plus(c, g), Plus(d, h), i, j, k, l);
    Sum4Plus(Plus(Plus(a, e), i), Plus(Plus(b, f), j), Plus(Plus(c, g), k), Plus(Plus(d, h), l), m, n, o, p);
  }

  lemma RowUnmixed(w: Bits, x: Bits, y: Bits, z: Bits)
    ensures UnmixRow(MixRow(w, x, y, z), MixRow(x, y, z, w), MixRow(y, z, w, x), MixRow(z, w, x, y)) == w
  {
    hide Plus, Times, Sum4;
    Rotate4(Times(x, 2), Times(y, 3), z, w); Rotate4(Times(y, 3), z, w, Times(x, 2));
    Rotate4(z, w, Times(x, 2), Times(y, 3));
    Rotate4(Times(y, 2), Times(z, 3), w, x); Rotate4(Times(z, 3), w, x, Times(y, 2));
    Rotate4(Times(z, 2), Times(w, 3), x, y);
    TimesSum4(Times(w, 2), Times(x, 3), y, z, 0x0e);
    TimesSum4(w, Times(x, 2), Times(y, 3), z, 0x0b);
    TimesSum4(w, x, Times(y, 2), Times(z, 3), 0x0d);
    TimesSum4(Times(w, 3), x, y, Times(z, 2), 0x09);
    Sum4Square(Times(Times(w, 2), 0x0e), Times(Times(x, 3), 0x0e), Times(y, 0x0e), Times(z, 0x0e),
               Times(w, 0x0b), Times(Times(x, 2), 0x0b), Times(Times(y, 3), 0x0b), Times(z, 0x0b),
               Times(w, 0x0d), Times(x, 0x0d), Times(Times(y, 2), 0x0d), Times(Times(z, 3), 0x0d),
               Times(Times(w, 3), 0x09), Times(x, 0x09), Times(y, 0x09), Times(Times(z, 2), 0x09));
    ByteThrough(w); ByteThrough(x); ByteThrough(y); ByteThrough(z);
    ZeroTail(w);
  }

  lemma ZeroTail(w: Bits)
    ensures Sum4(w, ZERO_BITS, ZERO_BITS, ZERO_BITS) == w
  {
  }

  lemma Xor4Bits(a: byte, b: byte, c: byte, d: byte)
    ensures ToBits(Xor4(a, b, c, d)) == Sum4(ToBits(a), ToBits(b), ToBits(c), ToBits(d))
  {
    hide ToBits, Xor, Plus;
    XorBits(a, b);
    XorBits(Xor(a, b), c);
    XorBits(Xor(Xor(a, b), c), d);
  }

  /** The bits of a mixed column, each row read from its own diagonal entry. */
  lemma MixBits(c: Column)
    ensures var w, x, y, z := ToBits(c.c0), ToBits(c.c1), ToBits(c.c2), ToBits(c.c3);
            var m := Mix(c);
            && ToBits(m.c0) == MixRow(w, x, y, z)
            && ToBits(m.c1) == MixRow(x, y, z, w)
            && ToBits(m.c2) == MixRow(y, z, w, x)
            && ToBits(m.c3) == MixRow(z, w, x, y)
  {
    hide ToBits, GfMul, Times, Sum4, Xor4;
    var w, x, y, z := ToBits(c.c0), ToBits(c.c1), ToBits(c.c2), ToBits(c.c3);
    GfMulBits(c.c0, 2); GfMulBits(c.c1, 2); GfMulBits(c.c2, 2); GfMulBits(c.c3, 2);
    GfMulBits(c.c0, 3); GfMulBits(c.c1, 3); GfMulBits(c.c2, 3); GfMulBits(c.c3, 3);
    Xor4Bits(GfMul(c.c0, 2), GfMul(c.c1, 3), c.c2, c.c3);
    Xor4Bits(c.c0, GfMul(c.c1, 2), GfMul(c.c2, 3), c.c3);
    Xor4Bits(c.c0, c.c1, GfMul(c.c2, 2), GfMul(c.c3, 3));
    Xor4Bits(GfMul(c.c0, 3), c.c1, c.c2, GfMul(c.c3, 2));
    Rotate4(w, Times(x, 2), Times(y, 3), z);
    Rotate4(w, x, Times(y, 2), Times(z, 3)); Rotate4(x, Times(y, 2), Times(z, 3), w);
    Rotate4(Times(z, 2), Times(w, 3), x, y);
    Rotate4(Times(w, 3), x, y, Times(z, 2)); Rotate4(x, y, Times(z, 2), Times(w, 3));
    Rotate4(y, Times(z, 2), Times(w, 3), x);
  }

  lemma InvMixBits(c: Column)
    ensures var p, q, r, s := ToBits(c.c0), ToBits(c.c1), ToBits(c.c2), ToBits(c.c3);
            var m := InvMix(c);
            && ToBits(m.c0) == UnmixRow(p, q, r, s)
            && ToBits(m.c1) == UnmixRow(q, r, s, p)
            && ToBits(m.c2) == UnmixRow(r, s, p, q)
            && ToBits(m.c3) == UnmixRow(s, p, q, r)
  {
    hide ToBits, GfMul, Times, Sum4, Xor4;
    var p, q, r, s := ToBits(c.c0), ToBits(c.c1), ToBits(c.c2), ToBits(c.c3);
    GfMulBits(c.c0, 0x0e); GfMulBits(c.c1, 0x0e); GfMulBits(c.c2, 0x0e); GfMulBits(c.c3, 0x0e);
    GfMulBits(c.c0, 0x0b); GfMulBits(c.c1, 0x0b); GfMulBits(c.c2, 0x0b); GfMulBits(c.c3, 0x0b);
    GfMulBits(c.c0, 0x0d); GfMulBits(c.c1, 0x0d); GfMulBits(c.c2, 0x0d); GfMulBits(c.c3, 0x0d);
    GfMulBits(c.c0, 0x09); GfMulBits(c.c1, 0x09); GfMulBits(c.c2, 0x09); GfMulBits(c.c3, 0x09);
    Xor4Bits(GfMul(c.c0, 0x0e), GfMul(c.c1, 0x0b), GfMul(c.c2, 0x0d), GfMul(c.c3, 0x09));
    Xor4Bits(GfMul(c.c0, 0x09), GfMul(c.c1, 0x0e), GfMul(c.c2, 0x0b), GfMul(c.c3, 0x0d));
    Xor4Bits(GfMul(c.c0, 0x0d), GfMul(c.c1, 0x09), GfMul(c.c2, 0x0e), GfMul(c.c3, 0x0b));
    Xor4Bits(GfMul(c.c0, 0x0b), GfMul(c.c1, 0x0d), GfMul(c.c2, 0x09), GfMul(c.c3, 0x0e));
    Rotate4(Times(p, 0x09), Times(q, 0x0e), Times(r, 0x0b), Times(s, 0x0d));
    Rotate4(Times(p, 0x0d), Times(q, 0x09), Times(r, 0x0e), Times(s, 0x0b));
    Rotate4(Times(q, 0x09), Times(r, 0x0e), Times(s, 0x0b), Times(p, 0x0d));
    Rotate4(Times(s, 0x0e), Times(p, 0x0b), Times(q, 0x0d), Times(r, 0x09));
  }

  /** The inverse matrix undoes the matrix on every column. */
  lemma InvMixUndoesMix(c: Column)
    ensures InvMix(Mix(c)) == c
  {
    hide ToBits, Mix, InvMix, MixRow, UnmixRow;
    var w, x, y, z := ToBits(c.c0), ToBits(c.c1), ToBits(c.c2), ToBits(c.c3);
    MixBits(c);
    InvMixBits(Mix(c));
    RowUnmixed(w, x, y, z); RowUnmixed(x, y, z, w); RowUnmixed(y, z, w, x); RowUnmixed(z, w, x, y);
    var d := InvMix(Mix(c));
    SameBits(d.c0, c.c0); SameBits(d.c1, c.c1); SameBits(d.c2, c.c2); SameBits(d.c3, c.c3);
  }
}
