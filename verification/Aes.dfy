/** The AES block cipher of aes.cpp: round steps that change a 16-byte state in
place, the key schedule, the cipher and its inverse.

The state is the first sixteen bytes of a buffer; byte 4*i + j is State[i][j] in
the program, row j of column i in FIPS 197.  Each method is proved against a
function on blocks, and the lemmas are about those functions: the inverse cipher
undoes the cipher for every expanded key, and the key schedule is the word
recurrence of section 5.2.
*/
module Aes {
  import opened Wrappers
  import opened Gf256
  import opened AesTables
  import opened AesColumns

  type Block = s: seq<byte> | |s| == 16 witness seq(16, _ => 0)

  /** The key lengths the program can be built for, in words. */
  predicate KeyWords(nk: nat) { nk == 4 || nk == 6 || nk == 8 }

  function Rounds(nk: nat): nat { nk + 6 }

  // ----- the round steps on blocks (sections 5.1 and 5.3 of FIPS 197)

  function AddRoundKeyOf(s: Block, w: seq<byte>, round: nat): Block
    requires 16 * round + 16 <= |w|
  {
    seq(16, k requires 0 <= k < 16 => Xor(s[k], w[16 * round + k]))
  }

  function SubBytesOf(s: Block): Block {
    seq(16, k requires 0 <= k < 16 => SBox(s[k]))
  }

  function InvSubBytesOf(s: Block): Block {
    seq(16, k requires 0 <= k < 16 => InvSBox(s[k]))
  }

  /** Row j, the bytes with k % 4 == j, moves j columns to the left. */
  function ShiftRowsOf(s: Block): Block {
    seq(16, k requires 0 <= k < 16 => s[(k + 4 * (k % 4)) % 16])
  }

  function InvShiftRowsOf(s: Block): Block {
    seq(16, k requires 0 <= k < 16 => s[(k + 12 * (k % 4)) % 16])
  }

  function ColumnOf(s: Block, i: nat): Column
    requires i < 4
  {
    Column(s[4 * i], s[4 * i + 1], s[4 * i + 2], s[4 * i + 3])
  }

  function Row(c: Column, j: nat): byte
    requires j < 4
  {
    if j == 0 then c.c0 else if j == 1 then c.c1 else if j == 2 then c.c2 else c.c3
  }

  function MixColumnsOf(s: Block): Block {
    seq(16, k requires 0 <= k < 16 => Row(Mix(ColumnOf(s, k / 4)), k % 4))
  }

  function InvMixColumnsOf(s: Block): Block {
    seq(16, k requires 0 <= k < 16 => Row(InvMix(ColumnOf(s, k / 4)), k % 4))
  }

  // ----- each step undone

  lemma AddRoundKeyTwice(s: Block, w: seq<byte>, round: nat)
    requires 16 * round + 16 <= |w|
    ensures AddRoundKeyOf(AddRoundKeyOf(s, w, round), w, round) == s
  {
    hide Xor;
    forall k | 0 <= k < 16
      ensures Xor(Xor(s[k], w[16 * round + k]), w[16 * round + k]) == s[k]
    {
      XorCancels(s[k], w[16 * round + k]);
    }
  }

  lemma SubShiftUndone(s: Block)
    ensures InvSubBytesOf(InvShiftRowsOf(ShiftRowsOf(SubBytesOf(s)))) == s
  {
    hide SBox, InvSBox;
    var t := ShiftRowsOf(SubBytesOf(s));
    forall k | 0 <= k < 16
      ensures InvSBox(InvShiftRowsOf(t)[k]) == s[k]
    {
      RotateBack(k);
      TablesInvert(s[k]);
    }
  }

  lemma RotateBack(k: nat)
    requires k < 16
    ensures var m := (k + 12 * (k % 4)) % 16; (m + 4 * (m % 4)) % 16 == k
  {
    assert k == 0 || k == 1 || k == 2 || k == 3 || k == 4 || k == 5 || k == 6 || k == 7
           || k == 8 || k == 9 || k == 10 || k == 11 || k == 12 || k == 13 || k == 14 || k == 15;
  }

  lemma MixedColumn(s: Block, i: nat)
    requires i < 4
    ensures ColumnOf(MixColumnsOf(s), i) == Mix(ColumnOf(s, i))
  {
    hide Mix;
    assert forall j {:trigger MixColumnsOf(s)[4 * i + j]} | 0 <= j < 4 :: (4 * i + j) / 4 == i && (4 * i + j) % 4 == j;
    var t := MixColumnsOf(s);
    assert t[4 * i + 0] == Mix(ColumnOf(s, i)).c0;
    assert t[4 * i + 1] == Mix(ColumnOf(s, i)).c1;
    assert t[4 * i + 2] == Mix(ColumnOf(s, i)).c2;
    assert t[4 * i + 3] == Mix(ColumnOf(s, i)).c3;
  }

  lemma RowOfColumn(s: Block, k: nat)
    requires k < 16
    ensures Row(ColumnOf(s, k / 4), k % 4) == s[k]
  {
    assert k == 4 * (k / 4) + k % 4;
  }

  lemma MixColumnsUndone(s: Block)
    ensures InvMixColumnsOf(MixColumnsOf(s)) == s
  {
    hide Mix, InvMix, MixColumnsOf, ColumnOf, Row;
    var t := MixColumnsOf(s);
    forall k: nat | k < 16
      ensures InvMixColumnsOf(t)[k] == s[k]
    {
      MixedColumn(s, k / 4);
      InvMixUndoesMix(ColumnOf(s, k / 4));
      RowOfColumn(s, k);
    }
  }

  // ----- the cipher and its inverse

  /** The state after the initial key addition and r full rounds. */
  function AfterRounds(s: Block, w: seq<byte>, r: nat): Block
    requires 16 * r + 16 <= |w|
  {
    if r == 0 then AddRoundKeyOf(s, w, 0)
    else AddRoundKeyOf(MixColumnsOf(ShiftRowsOf(SubBytesOf(AfterRounds(s, w, r - 1)))), w, r)
  }

  function CipherOf(s: Block, w: seq<byte>, nr: nat): Block
    requires nr > 0 && |w| == 16 * nr + 16
  {
    AddRoundKeyOf(ShiftRowsOf(SubBytesOf(AfterRounds(s, w, nr - 1))), w, nr)
  }

  /** The inverse rounds from round r down to round 1, then the last step. */
  function BackFrom(s: Block, w: seq<byte>, r: nat): Block
    requires 16 * r + 16 <= |w|
    decreases r
  {
    var t := InvSubBytesOf(InvShiftRowsOf(s));
    if r == 0 then AddRoundKeyOf(t, w, 0)
    else BackFrom(InvMixColumnsOf(AddRoundKeyOf(t, w, r)), w, r - 1)
  }

  function InvCipherOf(s: Block, w: seq<byte>, nr: nat): Block
    requires nr > 0 && |w| == 16 * nr + 16
  {
    BackFrom(AddRoundKeyOf(s, w, nr), w, nr - 1)
  }

  lemma {:induction false} BackUndoesRounds(s: Block, w: seq<byte>, r: nat)
    requires 16 * r + 16 <= |w|
    ensures BackFrom(ShiftRowsOf(SubBytesOf(AfterRounds(s, w, r))), w, r) == s
  {
    hide AddRoundKeyOf, SubBytesOf, ShiftRowsOf, MixColumnsOf, InvSubBytesOf, InvShiftRowsOf, InvMixColumnsOf;
    SubShiftUndone(AfterRounds(s, w, r));
    if r == 0 {
      AddRoundKeyTwice(s, w, 0);
    } else {
      var t := ShiftRowsOf(SubBytesOf(AfterRounds(s, w, r - 1)));
      AddRoundKeyTwice(MixColumnsOf(t), w, r);
      MixColumnsUndone(t);
      BackUndoesRounds(s, w, r - 1);
    }
  }

  /** Decryption undoes encryption: every state, every expanded key, every
      number of rounds. */
  lemma InvCipherUndoesCipher(s: Block, w: seq<byte>, nr: nat)
    requires nr > 0 && |w| == 16 * nr + 16
    ensures InvCipherOf(CipherOf(s, w, nr), w, nr) == s
  {
    hide AddRoundKeyOf, SubBytesOf, ShiftRowsOf;
    AddRoundKeyTwice(ShiftRowsOf(SubBytesOf(AfterRounds(s, w, nr - 1))), w, nr);
    BackUndoesRounds(s, w, nr - 1);
  }

  // ----- the key schedule (section 5.2 of FIPS 197)

  type Word = s: seq<byte> | |s| == 4 witness [0, 0, 0, 0]

  function XorWord(a: Word, b: Word): Word {
    [Xor(a[0], b[0]), Xor(a[1], b[1]), Xor(a[2], b[2]), Xor(a[3], b[3])]
  }

  function SubWord(a: Word): Word {
    [SBox(a[0]), SBox(a[1]), SBox(a[2]), SBox(a[3])]
  }

  function RotWord(a: Word): Word {
    [a[1], a[2], a[3], a[0]]
  }

  /** x to the power n, by repeated XTime. */
  function PowerOfX(n: nat): byte {
    if n == 0 then 1 else XTime(PowerOfX(n - 1))
  }

  /** How many key lengths lie before word i, not counting the key itself. */
  function Turn(i: nat, nk: nat): nat
    requires 0 < nk <= i
  {
    i / nk - 1
  }

  /** What is added to the word nk places back, from the previous word. */
  function Mixed(previous: Word, i: nat, nk: nat): Word
    requires nk > 0 && i >= nk
  {
    if i % nk == 0 then XorWord(SubWord(RotWord(previous)), [PowerOfX(Turn(i, nk)), 0, 0, 0])
    else if nk > 6 && i % nk == 4 then SubWord(previous)
    else previous
  }

  /** Word i of the expanded key. */
  function KeyWord(key: seq<byte>, nk: nat, i: nat): Word
    requires KeyWords(nk) && |key| == 4 * nk
  {
    if i < nk then key[4 * i..4 * i + 4] else
    XorWord(KeyWord(key, nk, i - nk), Mixed(KeyWord(key, nk, i - 1), i, nk))
  }

  const RCON: seq<byte> := [0x8d, 0x01, 0x02, 0x04, 0x08, 0x10, 0x20, 0x40, 0x80, 0x1b, 0x36]

  lemma XTimeValue(x: byte)
    ensures XTime(x) == if x < 128 then 2 * x else Xor(2 * x - 256, 0x1b)
  {
    hide ToBits, ToByte;
    ReductionBits();
    if x < 128 {
      XorBits(2 * x, 0);
      PlusZero(ToBits(2 * x));
      SameBits(XTime(x), 2 * x);
    }
  }

  /** The printed round constants are the powers of x. */
  lemma RconIsPower(j: nat)
    requires 1 <= j <= 10
    ensures RCON[j] == PowerOfX(j - 1)
  {
    hide Xor, XTime;
    XTimeValue(1); XTimeValue(2); XTimeValue(4); XTimeValue(8); XTimeValue(16);
    XTimeValue(32); XTimeValue(64); XTimeValue(128); XTimeValue(0x1b);
    XorZero();
    assert PowerOfX(0) == 1 && PowerOfX(1) == 2 && PowerOfX(2) == 4 && PowerOfX(3) == 8 && PowerOfX(4) == 16;
    assert PowerOfX(5) == 32 && PowerOfX(6) == 64 && PowerOfX(7) == 128 && PowerOfX(8) == 0x1b && PowerOfX(9) == 0x36;
  }

  lemma XorZero()
    ensures Xor(0, 0x1b) == 0x1b
  {
    hide ToBits, ToByte;
    XorBits(0, 0x1b);
    ReductionBits();
    PlusZero(ToBits(0x1b));
    SameBits(Xor(0, 0x1b), 0x1b);
  }

  // ----- the program's own arithmetic for the two column steps

  function Scaled(bit: bool, x: byte): byte { if bit then x else 0 }

  /** The program's Multiply, which looks at the five low bits of y only. */
  function Multiply(x: byte, y: nat): byte {
    var x1 := XTime(x);
    var x2 := XTime(x1);
    var x3 := XTime(x2);
    var x4 := XTime(x3);
    Xor(Xor(Xor(Xor(Scaled(y % 2 == 1, x), Scaled(y / 2 % 2 == 1, x1)), Scaled(y / 4 % 2 == 1, x2)),
            Scaled(y / 8 % 2 == 1, x3)), Scaled(y / 16 % 2 == 1, x4))
  }

  lemma XorAssoc(a: byte, b: byte, c: byte)
    ensures Xor(Xor(a, b), c) == Xor(a, Xor(b, c))
  {
    hide ToBits, ToByte, Xor, Plus;
    XorBits(a, b); XorBits(Xor(a, b), c); XorBits(b, c); XorBits(a, Xor(b, c));
    PlusAssoc(ToBits(a), ToBits(b), ToBits(c));
    SameBits(Xor(Xor(a, b), c), Xor(a, Xor(b, c)));
  }

  lemma XorWithZero(a: byte)
    ensures Xor(a, 0) == a
  {
    hide ToBits, ToByte, Xor, Plus;
    ReductionBits();
    XorBits(a, 0);
    PlusZero(ToBits(a));
    SameBits(Xor(a, 0), a);
  }

  /** On multipliers below 32 it is the product in GF(2^8). */
  lemma MultiplyIsProduct(x: byte, y: nat)
    requires y < 32
    ensures Multiply(x, y) == GfMul(x, y)
  {
    hide Xor, XTime;
    var x1, x2 := XTime(x), XTime(XTime(x));
    var x3, x4 := XTime(x2), XTime(XTime(x2));
    var s0, s1, s2, s3, s4 := Scaled(y % 2 == 1, x), Scaled(y / 2 % 2 == 1, x1), Scaled(y / 4 % 2 == 1, x2),
      Scaled(y / 8 % 2 == 1, x3), Scaled(y / 16 % 2 == 1, x4);
    assert y / 2 / 2 == y / 4 && y / 4 / 2 == y / 8 && y / 8 / 2 == y / 16 && y / 16 / 2 == 0;
    XorWithZero(s4);
    XorWithZero(0); XorWithZero(s0); XorWithZero(s1); XorWithZero(s2); XorWithZero(s3);
    var g4 := GfMul(x4, y / 16);
    var g3 := GfMul(x3, y / 8);
    var g2 := GfMul(x2, y / 4);
    var g1 := GfMul(x1, y / 2);
    assert g4 == s4;
    assert g3 == Xor(s3, s4);
    assert g2 == Xor(s2, Xor(s3, s4));
    assert g1 == Xor(s1, Xor(s2, Xor(s3, s4)));
    XorAssoc(Xor(Xor(s0, s1), s2), s3, s4);
    XorAssoc(Xor(s0, s1), s2, Xor(s3, s4));
    XorAssoc(s0, s1, Xor(s2, Xor(s3, s4)));
  }

  /** One row of the program's MixColumns: the shared sum of the column and a
      single XTime stand for the products with 02 and 03. */
  lemma FastRow(a: byte, b: byte, c: byte, d: byte)
    ensures Xor(a, Xor(XTime(Xor(a, b)), Xor4(a, b, c, d))) == Xor4(GfMul(a, 2), GfMul(b, 3), c, d)
  {
    hide ToBits, ToByte, Xor, XTime, GfMul, Plus, Times, X;
    var s, t, u, v := ToBits(a), ToBits(b), ToBits(c), ToBits(d);
    XorBits(a, b); XTimeBits(Xor(a, b)); XPlus(s, t);
    Xor4Bits(a, b, c, d);
    XorBits(XTime(Xor(a, b)), Xor4(a, b, c, d));
    XorBits(a, Xor(XTime(Xor(a, b)), Xor4(a, b, c, d)));
    GfMulBits(a, 2); GfMulBits(b, 3); SmallProducts(s); SmallProducts(t);
    Xor4Bits(GfMul(a, 2), GfMul(b, 3), c, d);
    FastRowBits(s, t, u, v, X(s), X(t));
    SameBits(Xor(a, Xor(XTime(Xor(a, b)), Xor4(a, b, c, d))), Xor4(GfMul(a, 2), GfMul(b, 3), c, d));
  }

  lemma FastRowBits(s: Bits, t: Bits, u: Bits, v: Bits, xs: Bits, xt: Bits)
    ensures Plus(s, Plus(Plus(xs, xt), Sum4(s, t, u, v))) == Sum4(xs, Plus(t, xt), u, v)
  {
  }

  lemma Xor4Rotates(a: byte, b: byte, c: byte, d: byte)
    ensures Xor4(a, b, c, d) == Xor4(b, c, d, a)
  {
    hide ToBits, ToByte, Xor4, Sum4;
    Xor4Bits(a, b, c, d);
    Xor4Bits(b, c, d, a);
    Rotate4(ToBits(a), ToBits(b), ToBits(c), ToBits(d));
    SameBits(Xor4(a, b, c, d), Xor4(b, c, d, a));
  }

  /** The four rows of a column as the program computes them. */
  lemma FastColumn(c: Column)
    ensures var sum := Xor4(c.c0, c.c1, c.c2, c.c3);
            Mix(c) == Column(Xor(c.c0, Xor(XTime(Xor(c.c0, c.c1)), sum)),
                             Xor(c.c1, Xor(XTime(Xor(c.c1, c.c2)), sum)),
                             Xor(c.c2, Xor(XTime(Xor(c.c2, c.c3)), sum)),
                             Xor(c.c3, Xor(XTime(Xor(c.c3, c.c0)), sum)))
  {
    hide Xor, XTime, GfMul, Xor4;
    var w, x, y, z := c.c0, c.c1, c.c2, c.c3;
    FastRow(w, x, y, z); FastRow(x, y, z, w); FastRow(y, z, w, x); FastRow(z, w, x, y);
    Xor4Rotates(w, x, y, z); Xor4Rotates(x, y, z, w); Xor4Rotates(y, z, w, x);
    Xor4Rotates(w, GfMul(x, 2), GfMul(y, 3), z);
    Xor4Rotates(w, x, GfMul(y, 2), GfMul(z, 3)); Xor4Rotates(x, GfMul(y, 2), GfMul(z, 3), w);
    Xor4Rotates(GfMul(z, 2), GfMul(w, 3), x, y);
  }

  // ----- the steps in place

  method GetSBox(state: array<byte>, at: nat)
    requires at + 4 <= state.Length
    modifies state
    ensures forall k | 0 <= k < state.Length ::
      state[k] == if at <= k < at + 4 then SBox(old(state[k])) else old(state[k])
  {
    hide SBox;
    state[at] := SBox(state[at]);
    state[at + 1] := SBox(state[at + 1]);
    state[at + 2] := SBox(state[at + 2]);
    state[at + 3] := SBox(state[at + 3]);
  }

  method SubBytes(state: array<byte>)
    requires state.Length >= 16
    modifies state
    ensures state[..16] == SubBytesOf(old(state[..16])) && state[16..] == old(state[16..])
  {
    hide SBox;
    for i := 0 to 4
      invariant forall k | 0 <= k < state.Length :: state[k] == if k < 4 * i then SBox(old(state[k])) else old(state[k])
    {
      GetSBox(state, 4 * i);
    }
  }

  method InvSubBytes(state: array<byte>)
    requires state.Length >= 16
    modifies state
    ensures state[..16] == InvSubBytesOf(old(state[..16])) && state[16..] == old(state[16..])
  {
    hide InvSBox;
    for i := 0 to 4
      invariant forall k | 0 <= k < state.Length ::
        state[k] == if k < 16 && k % 4 < i then InvSBox(old(state[k])) else old(state[k])
    {
      for j := 0 to 4
        invariant forall k | 0 <= k < state.Length ::
          state[k] == if k < 16 && (k % 4 < i || (k % 4 == i && k / 4 < j)) then InvSBox(old(state[k]))
                      else old(state[k])
      {
        state[4 * j + i] := InvSBox(state[4 * j + i]);
      }
    }
  }

  method AddRoundKey(state: array<byte>, expKey: array<byte>, round: nat)
    requires state.Length >= 16 && state != expKey && 16 * round + 16 <= expKey.Length
    modifies state
    ensures state[..16] == AddRoundKeyOf(old(state[..16]), expKey[..], round) && state[16..] == old(state[16..])
  {
    hide Xor;
    for i := 0 to 4
      invariant forall k | 0 <= k < state.Length ::
        state[k] == if k < 4 * i then Xor(old(state[k]), expKey[16 * round + k]) else old(state[k])
    {
      for j := 0 to 4
        invariant forall k | 0 <= k < state.Length ::
          state[k] == if k < 4 * i + j then Xor(old(state[k]), expKey[16 * round + k]) else old(state[k])
      {
        state[4 * i + j] := Xor(state[4 * i + j], expKey[16 * round + 4 * i + j]);
      }
    }
  }

  /** The macro SWAP on two cells. */
  method Swap(state: array<byte>, a: nat, b: nat)
    requires a < state.Length && b < state.Length
    modifies state
    ensures state[..] == old(state[..])[a := old(state[b])][b := old(state[a])]
  {
    var t := state[a];
    state[a] := state[b];
    state[b] := t;
  }

  function Rotated(s: seq<byte>, a: nat, b: nat, c: nat, d: nat): seq<byte>
    requires a < |s| && b < |s| && c < |s| && d < |s|
  {
    s[a := s[b]][b := s[c]][c := s[d]][d := s[a]]
  }

  /** The macro ROTATE on four cells. */
  method Rotate(state: array<byte>, a: nat, b: nat, c: nat, d: nat)
    requires a < state.Length && b < state.Length && c < state.Length && d < state.Length
    requires a != b && a != c && a != d && b != c && b != d && c != d
    modifies state
    ensures state[..] == Rotated(old(state[..]), a, b, c, d)
  {
    var t := state[a];
    state[a] := state[b];
    state[b] := state[c];
    state[c] := state[d];
    state[d] := t;
  }

  lemma ShiftRowsTable(s: Block)
    ensures ShiftRowsOf(s) == [s[0], s[5], s[10], s[15], s[4], s[9], s[14], s[3],
                               s[8], s[13], s[2], s[7], s[12], s[1], s[6], s[11]]
  {
  }

  lemma InvShiftRowsTable(s: Block)
    ensures InvShiftRowsOf(s) == [s[0], s[13], s[10], s[7], s[4], s[1], s[14], s[11],
                                  s[8], s[5], s[2], s[15], s[12], s[9], s[6], s[3]]
  {
  }

  method ShiftRows(state: array<byte>)
    requires state.Length >= 16
    modifies state
    ensures state[..16] == ShiftRowsOf(old(state[..16])) && state[16..] == old(state[16..])
  {
    hide ShiftRowsOf;
    ShiftRowsTable(state[..16]);
    Rotate(state, 1, 5, 9, 13);
    Swap(state, 2, 10);
    Swap(state, 6, 14);
    Rotate(state, 3, 15, 11, 7);
  }

  method InvShiftRows(state: array<byte>)
    requires state.Length >= 16
    modifies state
    ensures state[..16] == InvShiftRowsOf(old(state[..16])) && state[16..] == old(state[16..])
  {
    hide InvShiftRowsOf;
    InvShiftRowsTable(state[..16]);
    Rotate(state, 13, 9, 5, 1);
    Swap(state, 2, 10);
    Swap(state, 6, 14);
    Rotate(state, 3, 7, 11, 15);
  }

  /** The loop body of MixColumns on the column that starts at a cell. */
  method MixColumn(state: array<byte>, at: nat)
    requires at + 4 <= state.Length
    modifies state
    ensures state[..] == old(state[..at]
                             + Bytes(Mix(Column(state[at], state[at + 1], state[at + 2], state[at + 3])))
                             + state[at + 4..])
  {
    hide Xor, XTime, GfMul, Mix;
    FastColumn(Column(state[at], state[at + 1], state[at + 2], state[at + 3]));
    var t1 := state[at];
    var t2 := Xor(Xor(Xor(state[at], state[at + 1]), state[at + 2]), state[at + 3]);
    state[at] := Xor(state[at], Xor(XTime(Xor(state[at], state[at + 1])), t2));
    state[at + 1] := Xor(state[at + 1], Xor(XTime(Xor(state[at + 1], state[at + 2])), t2));
    state[at + 2] := Xor(state[at + 2], Xor(XTime(Xor(state[at + 2], state[at + 3])), t2));
    state[at + 3] := Xor(state[at + 3], Xor(XTime(Xor(state[at + 3], t1)), t2));
  }

  function Bytes(c: Column): seq<byte> { [c.c0, c.c1, c.c2, c.c3] }

  /** Blocks that agree column by column up to i, and with s from there on. */
  ghost predicate ColumnsDone(now: seq<byte>, done: Block, was: seq<byte>, i: nat)
    requires |now| == |was| >= 16 && i <= 4
  {
    now == done[..4 * i] + was[4 * i..]
  }

  lemma NoColumns(done: Block, was: seq<byte>)
    requires |was| >= 16
    ensures ColumnsDone(was, done, was, 0)
  {
  }

  lemma AllColumns(now: seq<byte>, done: Block, was: seq<byte>)
    requires |now| == |was| >= 16 && ColumnsDone(now, done, was, 4)
    ensures now[..16] == done && now[16..] == was[16..]
  {
  }

  lemma ColumnStep(now: seq<byte>, done: Block, was: seq<byte>, i: nat, c: Column, f: Column)
    requires |now| == |was| >= 16 && i < 4 && ColumnsDone(now, done, was, i)
    requires c == Column(now[4 * i], now[4 * i + 1], now[4 * i + 2], now[4 * i + 3])
    requires ColumnOf(done, i) == f
    ensures c == ColumnOf(was[..16], i)
    ensures ColumnsDone(now[..4 * i] + Bytes(f) + now[4 * i + 4..], done, was, i + 1)
  {
    var next := now[..4 * i] + Bytes(f) + now[4 * i + 4..];
    assert done[..4 * i + 4] == done[..4 * i] + Bytes(f);
    assert now[4 * i + 4..] == was[4 * i + 4..];
    assert next == done[..4 * i + 4] + was[4 * i + 4..];
  }

  method MixColumns(state: array<byte>)
    requires state.Length >= 16
    modifies state
    ensures state[..16] == MixColumnsOf(old(state[..16])) && state[16..] == old(state[16..])
  {
    hide MixColumnsOf, Mix, ColumnsDone, ColumnOf, Bytes;
    ghost var was := state[..];
    ghost var goal := MixColumnsOf(was[..16]);
    NoColumns(goal, was);
    for i := 0 to 4
      invariant ColumnsDone(state[..], goal, was, i)
    {
      MixedColumn(was[..16], i);
      ghost var c := Column(state[4 * i], state[4 * i + 1], state[4 * i + 2], state[4 * i + 3]);
      ColumnStep(state[..], goal, was, i, c, ColumnOf(goal, i));
      MixColumn(state, 4 * i);
    }
    AllColumns(state[..], goal, was);
  }

  lemma InvMixedColumn(s: Block, i: nat)
    requires i < 4
    ensures ColumnOf(InvMixColumnsOf(s), i) == InvMix(ColumnOf(s, i))
  {
    hide InvMix;
    assert forall j {:trigger InvMixColumnsOf(s)[4 * i + j]} | 0 <= j < 4 ::
           (4 * i + j) / 4 == i && (4 * i + j) % 4 == j;
    var t := InvMixColumnsOf(s);
    assert t[4 * i + 0] == InvMix(ColumnOf(s, i)).c0;
    assert t[4 * i + 1] == InvMix(ColumnOf(s, i)).c1;
    assert t[4 * i + 2] == InvMix(ColumnOf(s, i)).c2;
    assert t[4 * i + 3] == InvMix(ColumnOf(s, i)).c3;
  }

  lemma InverseProducts(x: byte)
    ensures Multiply(x, 0x0e) == GfMul(x, 0x0e) && Multiply(x, 0x0b) == GfMul(x, 0x0b)
    ensures Multiply(x, 0x0d) == GfMul(x, 0x0d) && Multiply(x, 0x09) == GfMul(x, 0x09)
  {
    hide Multiply, GfMul;
    MultiplyIsProduct(x, 0x0e);
    MultiplyIsProduct(x, 0x0b);
    MultiplyIsProduct(x, 0x0d);
    MultiplyIsProduct(x, 0x09);
  }

  /** The loop body of InvMixColumns on the column that starts at a cell. */
  method InvMixColumn(state: array<byte>, at: nat)
    requires at + 4 <= state.Length
    modifies state
    ensures state[..] == old(state[..at]
                             + Bytes(InvMix(Column(state[at], state[at + 1], state[at + 2], state[at + 3])))
                             + state[at + 4..])
  {
    hide Xor, XTime, GfMul, Multiply;
    var a, b, c, d := state[at], state[at + 1], state[at + 2], state[at + 3];
    InverseProducts(a); InverseProducts(b); InverseProducts(c); InverseProducts(d);
    state[at] := Xor(Xor(Xor(Multiply(a, 0x0e), Multiply(b, 0x0b)), Multiply(c, 0x0d)), Multiply(d, 0x09));
    state[at + 1] := Xor(Xor(Xor(Multiply(a, 0x09), Multiply(b, 0x0e)), Multiply(c, 0x0b)), Multiply(d, 0x0d));
    state[at + 2] := Xor(Xor(Xor(Multiply(a, 0x0d), Multiply(b, 0x09)), Multiply(c, 0x0e)), Multiply(d, 0x0b));
    state[at + 3] := Xor(Xor(Xor(Multiply(a, 0x0b), Multiply(b, 0x0d)), Multiply(c, 0x09)), Multiply(d, 0x0e));
  }

  method InvMixColumns(state: array<byte>)
    requires state.Length >= 16
    modifies state
    ensures state[..16] == InvMixColumnsOf(old(state[..16])) && state[16..] == old(state[16..])
  {
    hide InvMixColumnsOf, InvMix, ColumnsDone, ColumnOf, Bytes;
    ghost var was := state[..];
    ghost var goal := InvMixColumnsOf(was[..16]);
    NoColumns(goal, was);
    for i := 0 to 4
      invariant ColumnsDone(state[..], goal, was, i)
    {
      InvMixedColumn(was[..16], i);
      ghost var c := Column(state[4 * i], state[4 * i + 1], state[4 * i + 2], state[4 * i + 3]);
      ColumnStep(state[..], goal, was, i, c, ColumnOf(goal, i));
      InvMixColumn(state, 4 * i);
    }
    AllColumns(state[..], goal, was);
  }

  method Cipher(state: array<byte>, expKey: array<byte>, nr: nat)
    requires state.Length >= 16 && state != expKey && nr > 0 && expKey.Length == 16 * nr + 16
    modifies state
    ensures state[..16] == CipherOf(old(state[..16]), expKey[..], nr) && state[16..] == old(state[16..])
  {
    hide AddRoundKeyOf, SubBytesOf, ShiftRowsOf, MixColumnsOf;
    AddRoundKey(state, expKey, 0);
    for round := 1 to nr
      invariant state[..16] == AfterRounds(old(state[..16]), expKey[..], round - 1) && state[16..] == old(state[16..])
    {
      SubBytes(state);
      ShiftRows(state);
      MixColumns(state);
      AddRoundKey(state, expKey, round);
    }
    SubBytes(state);
    ShiftRows(state);
    AddRoundKey(state, expKey, nr);
  }

  method InvCipher(state: array<byte>, expKey: array<byte>, nr: nat)
    requires state.Length >= 16 && state != expKey && nr > 0 && expKey.Length == 16 * nr + 16
    modifies state
    ensures state[..16] == InvCipherOf(old(state[..16]), expKey[..], nr) && state[16..] == old(state[16..])
  {
    hide AddRoundKeyOf, InvSubBytesOf, InvShiftRowsOf, InvMixColumnsOf;
    AddRoundKey(state, expKey, nr);
    var round := nr - 1;
    while round > 0
      invariant 0 <= round < nr
      invariant BackFrom(state[..16], expKey[..], round) == InvCipherOf(old(state[..16]), expKey[..], nr)
      invariant state[16..] == old(state[16..])
    {
      InvShiftRows(state);
      InvSubBytes(state);
      AddRoundKey(state, expKey, round);
      InvMixColumns(state);
      round := round - 1;
    }
    InvShiftRows(state);
    InvSubBytes(state);
    AddRoundKey(state, expKey, 0);
  }

  /** The expanded key as the concatenation of its words. */
  function ExpandedKey(key: seq<byte>, nk: nat, words: nat): (w: seq<byte>)
    requires KeyWords(nk) && |key| == 4 * nk
    ensures |w| == 4 * words
  {
    if words == 0 then [] else ExpandedKey(key, nk, words - 1) + KeyWord(key, nk, words - 1)
  }

  lemma {:induction false} ExpandedKeyWord(key: seq<byte>, nk: nat, words: nat, i: nat)
    requires KeyWords(nk) && |key| == 4 * nk && i < words
    ensures ExpandedKey(key, nk, words)[4 * i..4 * i + 4] == KeyWord(key, nk, i)
  {
    hide KeyWord;
    if i + 1 < words {
      ExpandedKeyWord(key, nk, words - 1, i);
    }
  }

  /** The temporary word of the key schedule: what the loop body computes from
      the previous word before it adds the word nk places back. */
  method ScheduleStep(previous: Word, i: nat, nk: nat) returns (ta: Word)
    requires KeyWords(nk) && nk <= i / 4 < 4 * Rounds(nk) + 4 && i % 4 == 0
    ensures ta == Mixed(previous, i / 4, nk)
  {
    hide SBox, Xor, PowerOfX;
    var keyLen := 4 * nk;
    ta := previous;
    assert i % keyLen == 4 * (i / 4 % nk) && i / keyLen == i / 4 / nk by {
      KeyLengthSteps(i, nk);
    }
    if i % keyLen == 0 {
      ta := RotWord(ta);
      ta := SubWord(ta);
      assert 1 <= i / keyLen <= 10;
      RconIsPower(i / keyLen);
      XorWithZero(ta[1]);
      XorWithZero(ta[2]);
      XorWithZero(ta[3]);
      ta := ta[0 := Xor(ta[0], RCON[i / keyLen])];
    }
    if nk == 8 && i % keyLen == 16 {
      ta := SubWord(ta);
    }
  }

  lemma By4(m: nat)
    ensures 4 * m % 16 == 4 * (m % 4) && 4 * m / 16 == m / 4
  {
  }

  lemma By6(m: nat)
    ensures 4 * m % 24 == 4 * (m % 6) && 4 * m / 24 == m / 6
  {
  }

  lemma By8(m: nat)
    ensures 4 * m % 32 == 4 * (m % 8) && 4 * m / 32 == m / 8
  {
  }

  lemma KeyLengthSteps(i: nat, nk: nat)
    requires KeyWords(nk) && i % 4 == 0
    ensures i % (4 * nk) == 4 * (i / 4 % nk) && i / (4 * nk) == i / 4 / nk
  {
    if nk == 4 {
      By4(i / 4);
    } else if nk == 6 {
      By6(i / 4);
    } else {
      By8(i / 4);
    }
  }

  /** The four stores of the schedule's loop body. */
  method StoreWord(expKey: array<byte>, i: nat, keyLen: nat, ta: Word)
    requires 4 <= keyLen <= i && i + 4 <= expKey.Length
    modifies expKey
    ensures expKey[..] == old(expKey[..i] + XorWord(expKey[i - keyLen..i - keyLen + 4], ta) + expKey[i + 4..])
  {
    hide Xor;
    expKey[i] := Xor(expKey[i - keyLen], ta[0]);
    expKey[i + 1] := Xor(expKey[i - keyLen + 1], ta[1]);
    expKey[i + 2] := Xor(expKey[i - keyLen + 2], ta[2]);
    expKey[i + 3] := Xor(expKey[i - keyLen + 3], ta[3]);
  }

  /** One pass of the schedule's loop. */
  method ExpandWord(expKey: array<byte>, i: nat, nk: nat, ghost key: seq<byte>)
    requires KeyWords(nk) && |key| == 4 * nk && expKey.Length == 16 * Rounds(nk) + 16
    requires i % 4 == 0 && 4 * nk <= i < expKey.Length && expKey[..i] == ExpandedKey(key, nk, i / 4)
    modifies expKey
    ensures expKey[..i + 4] == ExpandedKey(key, nk, i / 4 + 1)
  {
    hide ExpandedKey, XorWord, Mixed;
    ghost var done := expKey[..i];
    ghost var back := done[i - 4 * nk..i - 4 * nk + 4];
    assert done[i - 4..] == expKey[i - 4..i];
    assert back == expKey[i - 4 * nk..i - 4 * nk + 4];
    var ta := ScheduleStep(expKey[i - 4..i], i, nk);
    StoreWord(expKey, i, 4 * nk, ta);
    assert expKey[..i + 4] == done + XorWord(back, ta);
    NextWord(key, nk, i / 4, done, back, ta);
  }

  method KeyExpansion(expKey: array<byte>, key: seq<byte>, nk: nat)
    requires KeyWords(nk) && |key| == 4 * nk && expKey.Length == 16 * Rounds(nk) + 16
    modifies expKey
    ensures expKey[..] == ExpandedKey(key, nk, 4 * Rounds(nk) + 4)
  {
    hide ExpandedKey;
    var keyLen := 4 * nk;
    for k := 0 to keyLen
      invariant expKey[..k] == key[..k]
    {
      expKey[k] := key[k];
    }
    KeyIsFirst(key, nk, nk);
    var i := keyLen;
    while i < expKey.Length
      invariant i % 4 == 0 && keyLen <= i <= expKey.Length
      invariant expKey[..i] == ExpandedKey(key, nk, i / 4)
    {
      ExpandWord(expKey, i, nk, key);
      i := i + 4;
    }
  }

  lemma NextWord(key: seq<byte>, nk: nat, n: nat, done: seq<byte>, back: Word, ta: Word)
    requires KeyWords(nk) && |key| == 4 * nk && n >= nk && done == ExpandedKey(key, nk, n)
    requires back == done[4 * n - 4 * nk..4 * n - 4 * nk + 4] && ta == Mixed(done[4 * n - 4..], n, nk)
    ensures done + XorWord(back, ta) == ExpandedKey(key, nk, n + 1)
  {
    hide Mixed, XorWord;
    ExpandedKeyWord(key, nk, n, n - 1);
    ExpandedKeyWord(key, nk, n, n - nk);
    assert done[4 * (n - 1)..4 * (n - 1) + 4] == done[4 * n - 4..];
    KeyWordStep(key, nk, n);
  }

  lemma {:induction false} KeyIsFirst(key: seq<byte>, nk: nat, n: nat)
    requires KeyWords(nk) && |key| == 4 * nk && n <= nk
    ensures ExpandedKey(key, nk, n) == key[..4 * n]
  {
    if n > 0 {
      KeyIsFirst(key, nk, n - 1);
    }
  }

  lemma KeyWordStep(key: seq<byte>, nk: nat, n: nat)
    requires KeyWords(nk) && |key| == 4 * nk && n >= nk
    ensures KeyWord(key, nk, n) == XorWord(KeyWord(key, nk, n - nk), Mixed(KeyWord(key, nk, n - 1), n, nk))
  {
    hide XorWord, Mixed;
  }

  // ----- the cipher column by column, on the words of the key

  /** Section 5.2 byte by byte: the key itself, then each byte from the one nk words back
      and the word before, rotated and constant-added at the start of a key length. */
  lemma ScheduleBytes(key: seq<byte>, nk: nat, i: nat, j: nat)
    requires KeyWords(nk) && |key| == 4 * nk && j < 4
    ensures i < nk ==> KeyWord(key, nk, i)[j] == key[4 * i + j]
    ensures i >= nk ==>
              var back, previous := KeyWord(key, nk, i - nk), KeyWord(key, nk, i - 1);
              KeyWord(key, nk, i)[j]
              == Xor(back[j], if i % nk == 0 && j == 0 then Xor(SBox(previous[1]), PowerOfX(Turn(i, nk)))
                              else if i % nk == 0 then SBox(previous[(j + 1) % 4])
                              else if nk == 8 && i % nk == 4 then SBox(previous[j])
                              else previous[j])
  {
    hide Xor, SBox, PowerOfX, Mixed, XorWord, Turn;
    if i >= nk {
      hide KeyWord;
      KeyWordStep(key, nk, i);
      MixedByte(KeyWord(key, nk, i - 1), i, nk, j);
      XorWordByte(KeyWord(key, nk, i - nk), Mixed(KeyWord(key, nk, i - 1), i, nk), j);
    }
  }

  lemma XorWordByte(a: Word, b: Word, j: nat)
    requires j < 4
    ensures XorWord(a, b)[j] == Xor(a[j], b[j])
  {
    hide Xor;
  }

  lemma MixedByte(previous: Word, i: nat, nk: nat, j: nat)
    requires KeyWords(nk) && i >= nk && j < 4
    ensures Mixed(previous, i, nk)[j] == if i % nk == 0 && j == 0 then Xor(SBox(previous[1]), PowerOfX(Turn(i, nk)))
                                         else if i % nk == 0 then SBox(previous[(j + 1) % 4])
                                         else if nk == 8 && i % nk == 4 then SBox(previous[j])
                                         else previous[j]
  {
    hide Xor, SBox, PowerOfX, Turn, RotWord;
    if i % nk == 0 {
      RotatedByte(previous, PowerOfX(Turn(i, nk)), j);
    } else {
      SubWordByte(previous, j);
    }
  }

  lemma SubWordByte(a: Word, j: nat)
    requires j < 4
    ensures SubWord(a)[j] == SBox(a[j])
  {
    hide SBox;
  }

  lemma RotatedByte(a: Word, p: byte, j: nat)
    requires j < 4
    ensures XorWord(SubWord(RotWord(a)), [p, 0, 0, 0])[j] == if j == 0 then Xor(SBox(a[1]), p) else SBox(a[(j + 1) % 4])
  {
    hide Xor, SBox;
    XorWithZero(SBox(a[(j + 1) % 4]));
    assert j == 0 || j == 1 || j == 2 || j == 3;
  }

  /** Section 5.1.4: round r adds key word 4 * r + i to column i. */
  lemma RoundKeyColumn(s: Block, key: seq<byte>, nk: nat, words: nat, r: nat, i: nat)
    requires KeyWords(nk) && |key| == 4 * nk && i < 4 && 4 * r + 4 <= words
    ensures AddRoundKeyOf(s, ExpandedKey(key, nk, words), r)[4 * i..4 * i + 4]
            == XorWord(s[4 * i..4 * i + 4], KeyWord(key, nk, 4 * r + i))
  {
    hide Xor, KeyWord, ExpandedKey;
    var w, k := ExpandedKey(key, nk, words), KeyWord(key, nk, 4 * r + i);
    ExpandedKeyWord(key, nk, words, 4 * r + i);
    assert forall j | 0 <= j < 4 :: w[4 * (4 * r + i)..4 * (4 * r + i) + 4][j] == k[j];
    assert forall j | 0 <= j < 4 :: w[16 * r + (4 * i + j)] == k[j];
  }

  /** Column i of a substituted state whose row j was moved j columns to the left. */
  function Substituted(s: Block, i: nat): Column
    requires i < 4
  {
    Column(SBox(s[4 * i]), SBox(s[(4 * i + 5) % 16]), SBox(s[(4 * i + 10) % 16]), SBox(s[(4 * i + 15) % 16]))
  }

  lemma SubstitutedColumn(s: Block, i: nat)
    requires i < 4
    ensures ColumnOf(ShiftRowsOf(SubBytesOf(s)), i) == Substituted(s, i)
  {
    hide SBox;
    assert i == 0 || i == 1 || i == 2 || i == 3;
  }

  /** A full round: one column from four bytes of the state before, and one key word. */
  ghost predicate RoundOf(before: Block, after: Block, key: seq<byte>, nk: nat, r: nat)
    requires KeyWords(nk) && |key| == 4 * nk
  {
    forall i: nat | i < 4 ::
      after[4 * i..4 * i + 4] == XorWord(Bytes(Mix(Substituted(before, i))), KeyWord(key, nk, 4 * r + i))
  }

  /** The last round does not mix. */
  ghost predicate LastRoundOf(before: Block, after: Block, key: seq<byte>, nk: nat, r: nat)
    requires KeyWords(nk) && |key| == 4 * nk
  {
    forall i: nat | i < 4 ::
      after[4 * i..4 * i + 4] == XorWord(Bytes(Substituted(before, i)), KeyWord(key, nk, 4 * r + i))
  }

  ghost predicate StartOf(before: Block, after: Block, key: seq<byte>, nk: nat)
    requires KeyWords(nk) && |key| == 4 * nk
  {
    forall i: nat | i < 4 :: after[4 * i..4 * i + 4] == XorWord(before[4 * i..4 * i + 4], KeyWord(key, nk, i))
  }

  lemma ColumnBytes(s: Block, i: nat)
    requires i < 4
    ensures s[4 * i..4 * i + 4] == Bytes(ColumnOf(s, i))
  {
  }

  lemma RoundIs(before: Block, key: seq<byte>, nk: nat, words: nat, r: nat)
    requires KeyWords(nk) && |key| == 4 * nk && 4 * r + 4 <= words
    ensures var w, t := ExpandedKey(key, nk, words), ShiftRowsOf(SubBytesOf(before));
            && RoundOf(before, AddRoundKeyOf(MixColumnsOf(t), w, r), key, nk, r)
            && LastRoundOf(before, AddRoundKeyOf(t, w, r), key, nk, r)
  {
    hide SBox, Mix, XorWord, KeyWord, ExpandedKey, ShiftRowsOf, SubBytesOf, MixColumnsOf, AddRoundKeyOf, Bytes;
    hide Substituted, ColumnOf;
    var t := ShiftRowsOf(SubBytesOf(before));
    forall i: nat | i < 4
      ensures t[4 * i..4 * i + 4] == Bytes(Substituted(before, i))
      ensures MixColumnsOf(t)[4 * i..4 * i + 4] == Bytes(Mix(Substituted(before, i)))
    {
      SubstitutedColumn(before, i);
      MixedColumn(t, i);
      ColumnBytes(t, i);
      ColumnBytes(MixColumnsOf(t), i);
    }
    forall i: nat | i < 4
      ensures AddRoundKeyOf(MixColumnsOf(t), ExpandedKey(key, nk, words), r)[4 * i..4 * i + 4]
              == XorWord(MixColumnsOf(t)[4 * i..4 * i + 4], KeyWord(key, nk, 4 * r + i))
      ensures AddRoundKeyOf(t, ExpandedKey(key, nk, words), r)[4 * i..4 * i + 4]
              == XorWord(t[4 * i..4 * i + 4], KeyWord(key, nk, 4 * r + i))
    {
      RoundKeyColumn(MixColumnsOf(t), key, nk, words, r, i);
      RoundKeyColumn(t, key, nk, words, r, i);
    }
  }

  /** The states of the cipher: 10, 12 or 14 rounds by the key's length, each column of
      each state from four substituted bytes of the one before and one word of the key. */
  lemma CipherByColumns(s: Block, key: seq<byte>, nk: nat) returns (states: seq<Block>)
    requires KeyWords(nk) && |key| == 4 * nk
    ensures var nr := if nk == 4 then 10 else if nk == 6 then 12 else 14;
            && |states| == nr + 1 && StartOf(s, states[0], key, nk)
            && (forall r | 0 < r < nr :: RoundOf(states[r - 1], states[r], key, nk, r))
            && LastRoundOf(states[nr - 1], states[nr], key, nk, nr)
            && CipherOf(s, ExpandedKey(key, nk, 4 * nr + 4), nr) == states[nr]
  {
    hide StartOf, RoundOf, LastRoundOf, ExpandedKey, AddRoundKeyOf, MixColumnsOf, ShiftRowsOf, SubBytesOf;
    var nr := Rounds(nk);
    states := FullRounds(s, key, nk, 4 * nr + 4, nr - 1);
    RoundIs(states[nr - 1], key, nk, 4 * nr + 4, nr);
    states := states + [CipherOf(s, ExpandedKey(key, nk, 4 * nr + 4), nr)];
  }

  lemma {:induction false} FullRounds(s: Block, key: seq<byte>, nk: nat, words: nat, r: nat)
    returns (states: seq<Block>)
    requires KeyWords(nk) && |key| == 4 * nk && 4 * r + 4 <= words
    ensures |states| == r + 1 && StartOf(s, states[0], key, nk)
    ensures states[r] == AfterRounds(s, ExpandedKey(key, nk, words), r)
    ensures forall q | 0 < q <= r :: RoundOf(states[q - 1], states[q], key, nk, q)
  {
    hide RoundOf, LastRoundOf, ExpandedKey, AddRoundKeyOf, MixColumnsOf, ShiftRowsOf, SubBytesOf, XorWord, KeyWord;
    if r == 0 {
      states := [AfterRounds(s, ExpandedKey(key, nk, words), 0)];
      forall i: nat | i < 4
        ensures states[0][4 * i..4 * i + 4] == XorWord(s[4 * i..4 * i + 4], KeyWord(key, nk, i))
      {
        RoundKeyColumn(s, key, nk, words, 0, i);
      }
    } else {
      states := FullRounds(s, key, nk, words, r - 1);
      RoundIs(states[r - 1], key, nk, words, r);
      states := states + [AfterRounds(s, ExpandedKey(key, nk, words), r)];
    }
  }
}
