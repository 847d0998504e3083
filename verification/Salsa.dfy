/** The Salsa20/8 core, once as section 3 of RFC 7914 defines it, once as the four vector
    registers of src/crypto/scrypt-sse2.cpp compute it. */
module Salsa {
  import opened Powers

  /** A 32-bit word, as a number. */
  type Word = nat

  const MODULUS := 0x1_0000_0000

  // ----- words

  function Add(a: Word, b: Word): (r: Word)
    ensures r < MODULUS
  {
    (a + b) % MODULUS
  }

  function Xor(a: Word, b: Word): Word {
    if a == 0 then b else if b == 0 then a else 2 * Xor(a / 2, b / 2) + if a % 2 == b % 2 then 0 else 1
  }

  function Or(a: Word, b: Word): Word {
    if a == 0 then b else if b == 0 then a else 2 * Or(a / 2, b / 2) + if a % 2 == 0 && b % 2 == 0 then 0 else 1
  }

  /** No bit is set in both. */
  predicate Apart(a: Word, b: Word) {
    a == 0 || b == 0 || ((a % 2 == 0 || b % 2 == 0) && Apart(a / 2, b / 2))
  }

  // Shifts by the constants of the core.
  function Left7(t: Word): Word { t * 128 % MODULUS }
  function Right25(t: Word): Word { t / 33554432 }
  function Left9(t: Word): Word { t * 512 % MODULUS }
  function Right23(t: Word): Word { t / 8388608 }
  function Left13(t: Word): Word { t * 8192 % MODULUS }
  function Right19(t: Word): Word { t / 524288 }
  function Left18(t: Word): Word { t * 262144 % MODULUS }
  function Right14(t: Word): Word { t / 16384 }

  // x ^ ROTL(t, k).
  function Turn7(x: Word, t: Word): Word { Xor(x, Or(Left7(t), Right25(t))) }
  function Turn9(x: Word, t: Word): Word { Xor(x, Or(Left9(t), Right23(t))) }
  function Turn13(x: Word, t: Word): Word { Xor(x, Or(Left13(t), Right19(t))) }
  function Turn18(x: Word, t: Word): Word { Xor(x, Or(Left18(t), Right14(t))) }

  // x ^= ROTL(a + b, k).
  function Mix7(x: Word, a: Word, b: Word): Word { Turn7(x, Add(a, b)) }
  function Mix9(x: Word, a: Word, b: Word): Word { Turn9(x, Add(a, b)) }
  function Mix13(x: Word, a: Word, b: Word): Word { Turn13(x, Add(a, b)) }
  function Mix18(x: Word, a: Word, b: Word): Word { Turn18(x, Add(a, b)) }

  lemma Halve(q: nat, bit: nat)
    requires bit < 2
    ensures (2 * q + bit) % 2 == bit && (2 * q + bit) / 2 == q
  {
  }

  lemma SameHalves(a: nat, b: nat)
    requires a % 2 == b % 2 && a / 2 == b / 2
    ensures a == b
  {
  }

  lemma XorUnfolds(a: Word, b: Word)
    requires a > 0 && b > 0
    ensures Xor(a, b) == 2 * Xor(a / 2, b / 2) + if a % 2 == b % 2 then 0 else 1
  {
  }

  lemma XorZero(a: Word)
    ensures Xor(a, 0) == a && Xor(0, a) == a
  {
  }

  lemma {:induction false} XorBits(a: Word, b: Word)
    ensures Xor(a, b) % 2 == (if a % 2 == b % 2 then 0 else 1)
    ensures Xor(a, b) / 2 == Xor(a / 2, b / 2)
  {
    hide Xor;
    if a == 0 || b == 0 {
      XorZero(a + b);
      XorZero((a + b) / 2);
    } else {
      XorUnfolds(a, b);
      Halve(Xor(a / 2, b / 2), if a % 2 == b % 2 then 0 else 1);
    }
  }

  lemma OrUnfolds(a: Word, b: Word)
    requires a > 0 && b > 0
    ensures Or(a, b) == 2 * Or(a / 2, b / 2) + if a % 2 == 0 && b % 2 == 0 then 0 else 1
  {
  }

  lemma OrZero(a: Word)
    ensures Or(a, 0) == a && Or(0, a) == a
  {
  }

  lemma {:induction false} OrBits(a: Word, b: Word)
    ensures Or(a, b) % 2 == (if a % 2 == 0 && b % 2 == 0 then 0 else 1)
    ensures Or(a, b) / 2 == Or(a / 2, b / 2)
  {
    hide Or;
    if a == 0 || b == 0 {
      OrZero(a + b);
      OrZero((a + b) / 2);
    } else {
      OrUnfolds(a, b);
      Halve(Or(a / 2, b / 2), if a % 2 == 0 && b % 2 == 0 then 0 else 1);
    }
  }

  lemma {:induction false} ApartBits(a: Word, b: Word)
    requires Apart(a, b)
    ensures (a % 2 == 0 || b % 2 == 0) && Apart(a / 2, b / 2)
  {
  }

  lemma {:induction false} XorTwiceStep(x: Word, l: Word, r: Word)
    requires l % 2 == 0 || r % 2 == 0
    requires Xor(Xor(x / 2, l / 2), r / 2) == Xor(x / 2, Or(l / 2, r / 2))
    ensures Xor(Xor(x, l), r) == Xor(x, Or(l, r))
  {
    hide Xor, Or;
    XorBits(x, l);
    OrBits(l, r);
    XorBits(Xor(x, l), r);
    XorBits(x, Or(l, r));
    SameHalves(Xor(Xor(x, l), r), Xor(x, Or(l, r)));
  }

  /** Two exclusive ors with words that share no bit are one with their union. */
  lemma {:induction false} XorTwice(x: Word, l: Word, r: Word)
    requires Apart(l, r)
    ensures Xor(Xor(x, l), r) == Xor(x, Or(l, r))
    decreases x + l + r
  {
    if x + l + r > 0 {
      ApartBits(l, r);
      XorTwice(x / 2, l / 2, r / 2);
      XorTwiceStep(x, l, r);
    }
  }

  /** Bit k of a word. */
  function Bit(w: Word, k: nat): nat {
    if k == 0 then w % 2 else Bit(w / 2, k - 1)
  }

  lemma {:induction false} BitOfZero(k: nat)
    ensures Bit(0, k) == 0
  {
    if k > 0 {
      BitOfZero(k - 1);
    }
  }

  /** A bit of the xor is set when the bits differ, one of the or when one is set. */
  lemma {:induction false} XorBit(a: Word, b: Word, k: nat)
    ensures Bit(Xor(a, b), k) == (if Bit(a, k) == Bit(b, k) then 0 else 1)
  {
    BitOfZero(k);
    BitIsBit(a, k);
    BitIsBit(b, k);
    if a != 0 && b != 0 {
      Halve(Xor(a / 2, b / 2), if a % 2 == b % 2 then 0 else 1);
      if k > 0 {
        XorBit(a / 2, b / 2, k - 1);
      }
    }
  }

  lemma {:induction false} BitIsBit(w: Word, k: nat)
    ensures Bit(w, k) < 2
  {
    if k > 0 {
      BitIsBit(w / 2, k - 1);
    }
  }

  /** Parts that share no bit are put together by adding, so that the or of the two shifts is the
      rotation. */
  lemma {:induction false} OrIsSum(a: Word, b: Word)
    requires Apart(a, b)
    ensures Or(a, b) == a + b
    decreases a + b
  {
    if a != 0 && b != 0 {
      OrIsSum(a / 2, b / 2);
    }
  }

  /** A multiple of 2^k and a number below 2^k share no bit. */
  lemma {:induction false} HighAndLow(m: Word, h: Word, k: nat, r: Word)
    requires h == Pow2(k) * m && r < Pow2(k)
    ensures Apart(h, r)
    decreases k
  {
    if k > 0 {
      var half := Pow2(k - 1) * m;
      assert h == 2 * half;
      HighAndLow(m, half, k - 1, r / 2);
    }
  }

  // The two shifts of a word, of which `hi` are the bits that come around.
  lemma Shifts7(hi: Word, lo: Word)
    requires hi < 128 && lo < 33554432
    ensures Left7(hi * 33554432 + lo) == 128 * lo && Right25(hi * 33554432 + lo) == hi
    ensures Apart(128 * lo, hi)
  {
    QuotientOf(hi, 33554432, lo);
    QuotientOf(hi, MODULUS, 128 * lo);
    PowersOfTwo();
    HighAndLow(lo, 128 * lo, 7, hi);
  }

  lemma Shifts9(hi: Word, lo: Word)
    requires hi < 512 && lo < 8388608
    ensures Left9(hi * 8388608 + lo) == 512 * lo && Right23(hi * 8388608 + lo) == hi
    ensures Apart(512 * lo, hi)
  {
    QuotientOf(hi, 8388608, lo);
    QuotientOf(hi, MODULUS, 512 * lo);
    PowersOfTwo();
    HighAndLow(lo, 512 * lo, 9, hi);
  }

  lemma Shifts13(hi: Word, lo: Word)
    requires hi < 8192 && lo < 524288
    ensures Left13(hi * 524288 + lo) == 8192 * lo && Right19(hi * 524288 + lo) == hi
    ensures Apart(8192 * lo, hi)
  {
    QuotientOf(hi, 524288, lo);
    QuotientOf(hi, MODULUS, 8192 * lo);
    PowersOfTwo();
    HighAndLow(lo, 8192 * lo, 13, hi);
  }

  lemma Shifts18(hi: Word, lo: Word)
    requires hi < 262144 && lo < 16384
    ensures Left18(hi * 16384 + lo) == 262144 * lo && Right14(hi * 16384 + lo) == hi
    ensures Apart(262144 * lo, hi)
  {
    QuotientOf(hi, 16384, lo);
    QuotientOf(hi, MODULUS, 262144 * lo);
    PowersOfTwo();
    HighAndLow(lo, 262144 * lo, 18, hi);
  }

  lemma Split7(x: Word, t: Word)
    requires t < MODULUS
    ensures Xor(Xor(x, Left7(t)), Right25(t)) == Turn7(x, t)
  {
    hide Xor, Or;
    Shifts7(t / 33554432, t % 33554432);
    XorTwice(x, Left7(t), Right25(t));
  }

  lemma Split9(x: Word, t: Word)
    requires t < MODULUS
    ensures Xor(Xor(x, Left9(t)), Right23(t)) == Turn9(x, t)
  {
    hide Xor, Or;
    Shifts9(t / 8388608, t % 8388608);
    XorTwice(x, Left9(t), Right23(t));
  }

  lemma Split13(x: Word, t: Word)
    requires t < MODULUS
    ensures Xor(Xor(x, Left13(t)), Right19(t)) == Turn13(x, t)
  {
    hide Xor, Or;
    Shifts13(t / 524288, t % 524288);
    XorTwice(x, Left13(t), Right19(t));
  }

  lemma Split18(x: Word, t: Word)
    requires t < MODULUS
    ensures Xor(Xor(x, Left18(t)), Right14(t)) == Turn18(x, t)
  {
    hide Xor, Or;
    Shifts18(t / 16384, t % 16384);
    XorTwice(x, Left18(t), Right14(t));
  }

  // So the high part of a word goes below the low part: it is turned around.
  lemma Rotates7(x: Word, hi: Word, lo: Word)
    requires hi < 128 && lo < 33554432
    ensures Turn7(x, hi * 33554432 + lo) == Xor(x, 128 * lo + hi)
  {
    hide Xor, Or, Left7, Right25;
    Shifts7(hi, lo);
    OrIsSum(128 * lo, hi);
  }

  lemma Rotates9(x: Word, hi: Word, lo: Word)
    requires hi < 512 && lo < 8388608
    ensures Turn9(x, hi * 8388608 + lo) == Xor(x, 512 * lo + hi)
  {
    hide Xor, Or, Left9, Right23;
    Shifts9(hi, lo);
    OrIsSum(512 * lo, hi);
  }

  lemma Rotates13(x: Word, hi: Word, lo: Word)
    requires hi < 8192 && lo < 524288
    ensures Turn13(x, hi * 524288 + lo) == Xor(x, 8192 * lo + hi)
  {
    hide Xor, Or, Left13, Right19;
    Shifts13(hi, lo);
    OrIsSum(8192 * lo, hi);
  }

  lemma Rotates18(x: Word, hi: Word, lo: Word)
    requires hi < 262144 && lo < 16384
    ensures Turn18(x, hi * 16384 + lo) == Xor(x, 262144 * lo + hi)
  {
    hide Xor, Or, Left18, Right14;
    Shifts18(hi, lo);
    OrIsSum(262144 * lo, hi);
  }

  lemma PowersOfTwo()
    ensures Pow2(7) == 128 && Pow2(9) == 512 && Pow2(13) == 8192 && Pow2(18) == 262144
  {
    assert Pow2(3) == 8 && Pow2(5) == 32 && Pow2(7) == 128 && Pow2(9) == 512 && Pow2(11) == 2048;
    assert Pow2(13) == 8192 && Pow2(15) == 32768 && Pow2(17) == 131072;
  }

  // ----- blocks of sixteen words

  datatype Block = Block(
    x00: Word, x01: Word, x02: Word, x03: Word, x04: Word, x05: Word, x06: Word, x07: Word,
    x08: Word, x09: Word, x10: Word, x11: Word, x12: Word, x13: Word, x14: Word, x15: Word)

  datatype Four = Four(w0: Word, w1: Word, w2: Word, w3: Word)

  /** The quarter round of section 3. */
  function Quarter(y0: Word, y1: Word, y2: Word, y3: Word): Four {
    var z1 := Mix7(y1, y0, y3);
    var z2 := Mix9(y2, z1, y0);
    var z3 := Mix13(y3, z2, z1);
    var z0 := Mix18(y0, z3, z2);
    Four(z0, z1, z2, z3)
  }

  function ColumnRound(x: Block): Block {
    var a := Quarter(x.x00, x.x04, x.x08, x.x12);
    var b := Quarter(x.x05, x.x09, x.x13, x.x01);
    var c := Quarter(x.x10, x.x14, x.x02, x.x06);
    var d := Quarter(x.x15, x.x03, x.x07, x.x11);
    Block(a.w0, b.w3, c.w2, d.w1, a.w1, b.w0, c.w3, d.w2, a.w2, b.w1, c.w0, d.w3, a.w3, b.w2, c.w1, d.w0)
  }

  function RowRound(x: Block): Block {
    var a := Quarter(x.x00, x.x01, x.x02, x.x03);
    var b := Quarter(x.x05, x.x06, x.x07, x.x04);
    var c := Quarter(x.x10, x.x11, x.x08, x.x09);
    var d := Quarter(x.x15, x.x12, x.x13, x.x14);
    Block(a.w0, a.w1, a.w2, a.w3, b.w3, b.w0, b.w1, b.w2, c.w2, c.w3, c.w0, c.w1, d.w1, d.w2, d.w3, d.w0)
  }

  /** Columns for rows. */
  function Transposed(x: Block): Block {
    Block(x.x00, x.x04, x.x08, x.x12, x.x01, x.x05, x.x09, x.x13,
          x.x02, x.x06, x.x10, x.x14, x.x03, x.x07, x.x11, x.x15)
  }

  /** The two rounds are the same on the square of words and on the square turned over. */
  lemma RowsAreColumns(x: Block)
    ensures RowRound(x) == Transposed(ColumnRound(Transposed(x)))
  {
    hide Quarter;
  }

  /** The quarter round on a single bit, as the Salsa20 specification gives it. */
  lemma QuarterExample()
    ensures Quarter(1, 0, 0, 0) == Four(0x0800_8145, 0x80, 0x1_0200, 0x2050_0000)
  {
    assert Mix7(0, 1, 0) == 0x80;
    assert Or(0x1_0200, 0) == 0x1_0200;
    assert Mix9(0, 0x80, 1) == 0x1_0200;
    assert Mix13(0, 0x1_0200, 0x80) == 0x2050_0000;
    assert Left18(0x2051_0200) == 0x800_0000 && Right14(0x2051_0200) == 0x8144;
    PowersOfTwo();
    HighAndLow(512, 0x800_0000, 18, 0x8144);
    OrIsSum(0x800_0000, 0x8144);
    assert Xor(1, 0x800_8144) == 0x800_8145;
  }

  function Rounds(x: Block, n: nat): Block {
    if n == 0 then x else RowRound(ColumnRound(Rounds(x, n - 1)))
  }

  function XorBlock(a: Block, b: Block): Block {
    Block(Xor(a.x00, b.x00), Xor(a.x01, b.x01), Xor(a.x02, b.x02), Xor(a.x03, b.x03),
          Xor(a.x04, b.x04), Xor(a.x05, b.x05), Xor(a.x06, b.x06), Xor(a.x07, b.x07),
          Xor(a.x08, b.x08), Xor(a.x09, b.x09), Xor(a.x10, b.x10), Xor(a.x11, b.x11),
          Xor(a.x12, b.x12), Xor(a.x13, b.x13), Xor(a.x14, b.x14), Xor(a.x15, b.x15))
  }

  function AddBlock(a: Block, b: Block): Block {
    Block(Add(a.x00, b.x00), Add(a.x01, b.x01), Add(a.x02, b.x02), Add(a.x03, b.x03),
          Add(a.x04, b.x04), Add(a.x05, b.x05), Add(a.x06, b.x06), Add(a.x07, b.x07),
          Add(a.x08, b.x08), Add(a.x09, b.x09), Add(a.x10, b.x10), Add(a.x11, b.x11),
          Add(a.x12, b.x12), Add(a.x13, b.x13), Add(a.x14, b.x14), Add(a.x15, b.x15))
  }

  /** B ^= Bx; B += Salsa20/8(B): the block function of both implementations. */
  function XorSalsa8(b: Block, bx: Block): Block {
    var x := XorBlock(b, bx);
    AddBlock(x, Rounds(x, 4))
  }

  // ----- vectors of four words, lowest lane first

  function AddVec(x: Four, y: Four): Four { Four(Add(x.w0, y.w0), Add(x.w1, y.w1), Add(x.w2, y.w2), Add(x.w3, y.w3)) }
  function XorVec(x: Four, y: Four): Four { Four(Xor(x.w0, y.w0), Xor(x.w1, y.w1), Xor(x.w2, y.w2), Xor(x.w3, y.w3)) }

  function Lane(x: Four, i: nat): Word
    requires i < 4
  {
    if i == 0 then x.w0 else if i == 1 then x.w1 else if i == 2 then x.w2 else x.w3
  }

  /** _mm_shuffle_epi32: two bits of the constant choose the source of each lane. */
  function Shuffle(x: Four, imm: nat): Four {
    Four(Lane(x, imm % 4), Lane(x, imm / 4 % 4), Lane(x, imm / 16 % 4), Lane(x, imm / 64 % 4))
  }

  function LeftVec7(t: Four): Four { Four(Left7(t.w0), Left7(t.w1), Left7(t.w2), Left7(t.w3)) }
  function RightVec25(t: Four): Four { Four(Right25(t.w0), Right25(t.w1), Right25(t.w2), Right25(t.w3)) }
  function LeftVec9(t: Four): Four { Four(Left9(t.w0), Left9(t.w1), Left9(t.w2), Left9(t.w3)) }
  function RightVec23(t: Four): Four { Four(Right23(t.w0), Right23(t.w1), Right23(t.w2), Right23(t.w3)) }
  function LeftVec13(t: Four): Four { Four(Left13(t.w0), Left13(t.w1), Left13(t.w2), Left13(t.w3)) }
  function RightVec19(t: Four): Four { Four(Right19(t.w0), Right19(t.w1), Right19(t.w2), Right19(t.w3)) }
  function LeftVec18(t: Four): Four { Four(Left18(t.w0), Left18(t.w1), Left18(t.w2), Left18(t.w3)) }
  function RightVec14(t: Four): Four { Four(Right14(t.w0), Right14(t.w1), Right14(t.w2), Right14(t.w3)) }

  // T = A + B; X ^= T << k; X ^= T >> (32 - k).
  function VecMix7(x: Four, a: Four, b: Four): Four {
    XorVec(XorVec(x, LeftVec7(AddVec(a, b))), RightVec25(AddVec(a, b)))
  }
  function VecMix9(x: Four, a: Four, b: Four): Four {
    XorVec(XorVec(x, LeftVec9(AddVec(a, b))), RightVec23(AddVec(a, b)))
  }
  function VecMix13(x: Four, a: Four, b: Four): Four {
    XorVec(XorVec(x, LeftVec13(AddVec(a, b))), RightVec19(AddVec(a, b)))
  }
  function VecMix18(x: Four, a: Four, b: Four): Four {
    XorVec(XorVec(x, LeftVec18(AddVec(a, b))), RightVec14(AddVec(a, b)))
  }

  lemma VecMixLanes7(x: Four, a: Four, b: Four)
    ensures VecMix7(x, a, b)
            == Four(Mix7(x.w0, a.w0, b.w0), Mix7(x.w1, a.w1, b.w1), Mix7(x.w2, a.w2, b.w2), Mix7(x.w3, a.w3, b.w3))
  {
    hide Add, Xor, Left7, Right25, Turn7;
    Split7(x.w0, Add(a.w0, b.w0));
    Split7(x.w1, Add(a.w1, b.w1));
    Split7(x.w2, Add(a.w2, b.w2));
    Split7(x.w3, Add(a.w3, b.w3));
  }

  lemma VecMixLanes9(x: Four, a: Four, b: Four)
    ensures VecMix9(x, a, b)
            == Four(Mix9(x.w0, a.w0, b.w0), Mix9(x.w1, a.w1, b.w1), Mix9(x.w2, a.w2, b.w2), Mix9(x.w3, a.w3, b.w3))
  {
    hide Add, Xor, Left9, Right23, Turn9;
    Split9(x.w0, Add(a.w0, b.w0));
    Split9(x.w1, Add(a.w1, b.w1));
    Split9(x.w2, Add(a.w2, b.w2));
    Split9(x.w3, Add(a.w3, b.w3));
  }

  lemma VecMixLanes13(x: Four, a: Four, b: Four)
    ensures VecMix13(x, a, b)
            == Four(Mix13(x.w0, a.w0, b.w0), Mix13(x.w1, a.w1, b.w1), Mix13(x.w2, a.w2, b.w2), Mix13(x.w3, a.w3, b.w3))
  {
    hide Add, Xor, Left13, Right19, Turn13;
    Split13(x.w0, Add(a.w0, b.w0));
    Split13(x.w1, Add(a.w1, b.w1));
    Split13(x.w2, Add(a.w2, b.w2));
    Split13(x.w3, Add(a.w3, b.w3));
  }

  lemma VecMixLanes18(x: Four, a: Four, b: Four)
    ensures VecMix18(x, a, b)
            == Four(Mix18(x.w0, a.w0, b.w0), Mix18(x.w1, a.w1, b.w1), Mix18(x.w2, a.w2, b.w2), Mix18(x.w3, a.w3, b.w3))
  {
    hide Add, Xor, Left18, Right14, Turn18;
    Split18(x.w0, Add(a.w0, b.w0));
    Split18(x.w1, Add(a.w1, b.w1));
    Split18(x.w2, Add(a.w2, b.w2));
    Split18(x.w3, Add(a.w3, b.w3));
  }

  // ----- the four registers

  datatype Regs = Regs(r0: Four, r1: Four, r2: Four, r3: Four)

  /** Lane i of the registers holds word i * 5 % 16 of the block. */
  function Lanes(x: Block): Regs {
    Regs(Four(x.x00, x.x05, x.x10, x.x15), Four(x.x04, x.x09, x.x14, x.x03),
         Four(x.x08, x.x13, x.x02, x.x07), Four(x.x12, x.x01, x.x06, x.x11))
  }

  /** The operations on "columns" and the first rearrangement. */
  function VecColumns(x: Regs): Regs {
    var r1 := VecMix7(x.r1, x.r0, x.r3);
    var r2 := VecMix9(x.r2, r1, x.r0);
    var r3 := VecMix13(x.r3, r2, r1);
    var r0 := VecMix18(x.r0, r3, r2);
    Regs(r0, Shuffle(r1, 0x93), Shuffle(r2, 0x4E), Shuffle(r3, 0x39))
  }

  /** The operations on "rows" and the second rearrangement. */
  function VecRows(x: Regs): Regs {
    var r3 := VecMix7(x.r3, x.r0, x.r1);
    var r2 := VecMix9(x.r2, r3, x.r0);
    var r1 := VecMix13(x.r1, r2, r3);
    var r0 := VecMix18(x.r0, r1, r2);
    Regs(r0, Shuffle(r1, 0x39), Shuffle(r2, 0x4E), Shuffle(r3, 0x93))
  }

  function VecRounds(x: Regs, n: nat): Regs {
    if n == 0 then x else VecRows(VecColumns(VecRounds(x, n - 1)))
  }

  function XorRegs(a: Regs, b: Regs): Regs {
    Regs(XorVec(a.r0, b.r0), XorVec(a.r1, b.r1), XorVec(a.r2, b.r2), XorVec(a.r3, b.r3))
  }

  function AddRegs(a: Regs, b: Regs): Regs {
    Regs(AddVec(a.r0, b.r0), AddVec(a.r1, b.r1), AddVec(a.r2, b.r2), AddVec(a.r3, b.r3))
  }

  function VecXorSalsa8(b: Regs, bx: Regs): Regs {
    var x := XorRegs(b, bx);
    AddRegs(x, VecRounds(x, 4))
  }

  lemma ShuffleIs(x: Four)
    ensures Shuffle(x, 0x93) == Four(x.w3, x.w0, x.w1, x.w2)
    ensures Shuffle(x, 0x4E) == Four(x.w2, x.w3, x.w0, x.w1)
    ensures Shuffle(x, 0x39) == Four(x.w1, x.w2, x.w3, x.w0)
  {
  }

  /** Between the two halves of a double round the lanes are arranged by rows. */
  function RowLanes(x: Block): Regs {
    Regs(Four(x.x00, x.x05, x.x10, x.x15), Four(x.x03, x.x04, x.x09, x.x14),
         Four(x.x02, x.x07, x.x08, x.x13), Four(x.x01, x.x06, x.x11, x.x12))
  }

  lemma ColumnsInLanes(x: Block)
    ensures VecColumns(Lanes(x)) == RowLanes(ColumnRound(x))
  {
    hide Mix7, Mix9, Mix13, Mix18, VecMix7, VecMix9, VecMix13, VecMix18, Shuffle;
    var r := Lanes(x);
    VecMixLanes7(r.r1, r.r0, r.r3);
    var r1 := VecMix7(r.r1, r.r0, r.r3);
    VecMixLanes9(r.r2, r1, r.r0);
    var r2 := VecMix9(r.r2, r1, r.r0);
    VecMixLanes13(r.r3, r2, r1);
    var r3 := VecMix13(r.r3, r2, r1);
    VecMixLanes18(r.r0, r3, r2);
    ShuffleIs(r1);
    ShuffleIs(r2);
    ShuffleIs(r3);
  }

  lemma RowsInLanes(x: Block)
    ensures VecRows(RowLanes(x)) == Lanes(RowRound(x))
  {
    hide Mix7, Mix9, Mix13, Mix18, VecMix7, VecMix9, VecMix13, VecMix18, Shuffle;
    var r := RowLanes(x);
    VecMixLanes7(r.r3, r.r0, r.r1);
    var r3 := VecMix7(r.r3, r.r0, r.r1);
    VecMixLanes9(r.r2, r3, r.r0);
    var r2 := VecMix9(r.r2, r3, r.r0);
    VecMixLanes13(r.r1, r2, r3);
    var r1 := VecMix13(r.r1, r2, r3);
    VecMixLanes18(r.r0, r1, r2);
    ShuffleIs(r1);
    ShuffleIs(r2);
    ShuffleIs(r3);
  }

  lemma {:induction false} RoundsInLanes(x: Block, n: nat)
    ensures VecRounds(Lanes(x), n) == Lanes(Rounds(x, n))
  {
    hide VecColumns, VecRows, ColumnRound, RowRound, Lanes;
    if n > 0 {
      RoundsInLanes(x, n - 1);
      ColumnsInLanes(Rounds(x, n - 1));
      RowsInLanes(ColumnRound(Rounds(x, n - 1)));
    }
  }

  /** The vector form of the block function is the scalar form on permuted lanes. */
  lemma XorSalsa8InLanes(b: Block, bx: Block)
    ensures VecXorSalsa8(Lanes(b), Lanes(bx)) == Lanes(XorSalsa8(b, bx))
  {
    hide Rounds, VecRounds, Xor, Add;
    RoundsInLanes(XorBlock(b, bx), 4);
    assert XorRegs(Lanes(b), Lanes(bx)) == Lanes(XorBlock(b, bx));
  }

  lemma XorBlockInLanes(a: Block, b: Block)
    ensures XorRegs(Lanes(a), Lanes(b)) == Lanes(XorBlock(a, b))
  {
    hide Xor;
  }
}
