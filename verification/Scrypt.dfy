/** scrypt with N = 1024, r = 1, p = 1: the function of sections 4 to 6 of RFC 7914, the
    scalar implementation of src/crypto/scrypt.cpp and the vector implementation of
    src/crypto/scrypt-sse2.cpp. PBKDF2 is a parameter. */
module Scrypt {
  import opened Salsa

  type Byte = nat

  type Kdf = (seq<Byte>, seq<Byte>, nat) -> seq<Byte>

  ghost predicate GivesLength(pbkdf2: Kdf) {
    forall p, salt, n :: |pbkdf2(p, salt, n)| == n
  }

  // ----- words in bytes and in arrays

  function WordOf(x: Block, i: nat): Word
    requires i < 16
  {
    if i == 0 then x.x00 else if i == 1 then x.x01 else if i == 2 then x.x02 else if i == 3 then x.x03
    else if i == 4 then x.x04 else if i == 5 then x.x05 else if i == 6 then x.x06 else if i == 7 then x.x07
    else if i == 8 then x.x08 else if i == 9 then x.x09 else if i == 10 then x.x10 else if i == 11 then x.x11
    else if i == 12 then x.x12 else if i == 13 then x.x13 else if i == 14 then x.x14 else x.x15
  }

  function BlockAt(s: seq<Word>, off: nat): Block
    requires off + 16 <= |s|
  {
    Block(s[off + 0], s[off + 1], s[off + 2], s[off + 3],
          s[off + 4], s[off + 5], s[off + 6], s[off + 7],
          s[off + 8], s[off + 9], s[off + 10], s[off + 11],
          s[off + 12], s[off + 13], s[off + 14], s[off + 15])
  }

  lemma BlockAtIs(s: seq<Word>, off: nat, x: Block)
    requires off + 16 <= |s|
    requires forall i :: 0 <= i < 16 ==> s[off + i] == WordOf(x, i)
    ensures BlockAt(s, off) == x
  {
    assert s[off + 0] == WordOf(x, 0);
    assert s[off + 1] == WordOf(x, 1);
    assert s[off + 2] == WordOf(x, 2);
    assert s[off + 3] == WordOf(x, 3);
    assert s[off + 4] == WordOf(x, 4);
    assert s[off + 5] == WordOf(x, 5);
    assert s[off + 6] == WordOf(x, 6);
    assert s[off + 7] == WordOf(x, 7);
    assert s[off + 8] == WordOf(x, 8);
    assert s[off + 9] == WordOf(x, 9);
    assert s[off + 10] == WordOf(x, 10);
    assert s[off + 11] == WordOf(x, 11);
    assert s[off + 12] == WordOf(x, 12);
    assert s[off + 13] == WordOf(x, 13);
    assert s[off + 14] == WordOf(x, 14);
    assert s[off + 15] == WordOf(x, 15);
  }

  lemma WordOfBlockAt(s: seq<Word>, off: nat, i: nat)
    requires off + 16 <= |s| && i < 16
    ensures WordOf(BlockAt(s, off), i) == s[off + i]
  {
  }

  function Le32Dec(b: seq<Byte>, off: nat): Word
    requires off + 4 <= |b|
  {
    b[off] + b[off + 1] * 0x100 + b[off + 2] * 0x1_0000 + b[off + 3] * 0x100_0000
  }

  /** Byte j of a word, lowest first. */
  function ByteOf(w: Word, j: nat): Byte {
    if j == 0 then w % 0x100 else ByteOf(w / 0x100, j - 1)
  }

  lemma TakeByte(low: nat, rest: nat)
    requires low < 0x100
    ensures (low + 0x100 * rest) % 0x100 == low && (low + 0x100 * rest) / 0x100 == rest
  {
  }

  lemma NextByte(w: Word, j: nat)
    ensures ByteOf(w, 0) == w % 0x100 && ByteOf(w, j + 1) == ByteOf(w / 0x100, j)
  {
  }

  /** A byte of a word, by shifting and masking. */
  lemma ByteIs(w: Word)
    ensures ByteOf(w, 0) == w % 0x100
    ensures ByteOf(w, 1) == w / 0x100 % 0x100
    ensures ByteOf(w, 2) == w / 0x1_0000 % 0x100
    ensures ByteOf(w, 3) == w / 0x100_0000 % 0x100
  {
    hide ByteOf;
    var w1, w2 := w / 0x100, w / 0x100 / 0x100;
    NextByte(w, 0);
    NextByte(w, 1);
    NextByte(w, 2);
    NextByte(w1, 0);
    NextByte(w1, 1);
    NextByte(w2, 0);
    NextByte(w2 / 0x100, 0);
    assert w2 == w / 0x1_0000 && w2 / 0x100 == w / 0x100_0000;
  }

  ghost predicate AreBytes(b: seq<Byte>) {
    forall i :: 0 <= i < |b| ==> b[i] < 0x100
  }

  lemma FourBytes(b0: Byte, b1: Byte, b2: Byte, b3: Byte)
    requires b0 < 0x100 && b1 < 0x100 && b2 < 0x100 && b3 < 0x100
    ensures var w := b0 + b1 * 0x100 + b2 * 0x1_0000 + b3 * 0x100_0000;
            && ByteOf(w, 0) == b0 && ByteOf(w, 1) == b1 && ByteOf(w, 2) == b2 && ByteOf(w, 3) == b3
            && w < MODULUS
  {
    hide ByteOf;
    var w2: nat := b2 + 0x100 * b3;
    var w1: nat := b1 + 0x100 * w2;
    var w: nat := b0 + 0x100 * w1;
    TakeByte(b0, w1);
    TakeByte(b1, w2);
    TakeByte(b2, b3);
    TakeByte(b3, 0);
    NextByte(w, 0);
    NextByte(w, 1);
    NextByte(w, 2);
    NextByte(w1, 0);
    NextByte(w1, 1);
    NextByte(w2, 0);
    NextByte(b3, 0);
    assert w == b0 + b1 * 0x100 + b2 * 0x1_0000 + b3 * 0x100_0000;
  }

  /** The word that is read has the bytes that are there, lowest first. */
  lemma ReadHasBytes(b: seq<Byte>, off: nat, j: nat)
    requires off + 4 <= |b| && AreBytes(b) && j < 4
    ensures ByteOf(Le32Dec(b, off), j) == b[off + j]
    ensures Le32Dec(b, off) < MODULUS
  {
    hide ByteOf;
    FourBytes(b[off], b[off + 1], b[off + 2], b[off + 3]);
  }

  lemma ByteIsSmall(w: Word)
    ensures w == w % 0x100 + 0x100 * (w / 0x100) && w % 0x100 < 0x100
  {
  }

  /** A word is its bytes. */
  lemma WordHasBytes(w: Word)
    requires w < MODULUS
    ensures w == ByteOf(w, 0) + ByteOf(w, 1) * 0x100 + ByteOf(w, 2) * 0x1_0000 + ByteOf(w, 3) * 0x100_0000
  {
    hide ByteOf;
    var w1, w2, w3 := w / 0x100, w / 0x100 / 0x100, w / 0x100 / 0x100 / 0x100;
    ByteIsSmall(w);
    ByteIsSmall(w1);
    ByteIsSmall(w2);
    NextByte(w, 0);
    NextByte(w, 1);
    NextByte(w, 2);
    NextByte(w1, 0);
    NextByte(w1, 1);
    NextByte(w2, 0);
    NextByte(w3, 0);
    assert w3 < 0x100;
    ByteIsSmall(w3);
  }

  // ----- the function

  datatype Pair = Pair(lo: Block, hi: Block)

  function WordOfPair(p: Pair, k: nat): Word
    requires k < 32
  {
    if k < 16 then WordOf(p.lo, k) else WordOf(p.hi, k - 16)
  }

  function PairAt(s: seq<Word>, off: nat): Pair
    requires off + 32 <= |s|
  {
    Pair(BlockAt(s, off), BlockAt(s, off + 16))
  }

  function Words(b: seq<Byte>): (r: seq<Word>)
    requires |b| == 128
    ensures |r| == 32 && forall k :: 0 <= k < 32 ==> r[k] == Le32Dec(b, 4 * k)
  {
    seq(32, k requires 0 <= k < 32 => Le32Dec(b, 4 * k))
  }

  function Decode(b: seq<Byte>): Pair
    requires |b| == 128
  {
    PairAt(Words(b), 0)
  }

  function Encode(p: Pair): (r: seq<Byte>)
    ensures |r| == 128
    ensures forall m :: 0 <= m < 128 ==> r[m] == ByteOf(WordOfPair(p, m / 4), m % 4)
  {
    seq(128, m requires 0 <= m < 128 => ByteOf(WordOfPair(p, m / 4), m % 4))
  }

  /** Reading and writing undo each other: on bytes, */
  lemma EncodeDecode(b: seq<Byte>)
    requires |b| == 128 && AreBytes(b)
    ensures Encode(Decode(b)) == b
  {
    hide Le32Dec, ByteOf, WordOf, BlockAt;
    forall m | 0 <= m < 128 ensures Encode(Decode(b))[m] == b[m] {
      WordOfPairAt(Words(b), m / 4);
      ReadHasBytes(b, 4 * (m / 4), m % 4);
    }
  }

  ghost predicate AreWords(p: Pair) {
    forall k :: 0 <= k < 32 ==> WordOfPair(p, k) < MODULUS
  }

  /** and on words. */
  lemma DecodeEncode(p: Pair)
    requires AreWords(p)
    ensures Decode(Encode(p)) == p
  {
    hide ByteOf, BlockAt, Decode;
    var b := Encode(p);
    forall k | 0 <= k < 32 ensures Words(b)[k] == WordOfPair(p, k) {
      WrittenWord(p, k);
    }
    SameWords(Words(b), p);
    DecodeIs(b);
  }

  lemma DecodeIs(b: seq<Byte>)
    requires |b| == 128
    ensures Decode(b) == PairAt(Words(b), 0)
  {
  }

  lemma WrittenWord(p: Pair, k: nat)
    requires AreWords(p) && k < 32
    ensures Le32Dec(Encode(p), 4 * k) == WordOfPair(p, k)
  {
    hide ByteOf, WordOfPair;
    var b := Encode(p);
    assert b[4 * k] == ByteOf(WordOfPair(p, k), 0) && b[4 * k + 1] == ByteOf(WordOfPair(p, k), 1);
    assert b[4 * k + 2] == ByteOf(WordOfPair(p, k), 2) && b[4 * k + 3] == ByteOf(WordOfPair(p, k), 3);
    WordHasBytes(WordOfPair(p, k));
  }

  lemma SameWords(s: seq<Word>, p: Pair)
    requires |s| == 32 && forall k :: 0 <= k < 32 ==> s[k] == WordOfPair(p, k)
    ensures PairAt(s, 0) == p
  {
    hide WordOf, BlockAt;
    forall i | 0 <= i < 16 ensures s[0 + i] == WordOf(p.lo, i) && s[16 + i] == WordOf(p.hi, i) {
      assert s[i] == WordOfPair(p, i) && s[16 + i] == WordOfPair(p, 16 + i);
    }
    BlockAtIs(s, 0, p.lo);
    BlockAtIs(s, 16, p.hi);
  }

  /** scryptBlockMix of section 4, for r = 1. */
  function BlockMix(p: Pair): Pair {
    var lo := XorSalsa8(p.lo, p.hi);
    Pair(lo, XorSalsa8(p.hi, lo))
  }

  function XorPair(a: Pair, b: Pair): Pair {
    Pair(XorBlock(a.lo, b.lo), XorBlock(a.hi, b.hi))
  }

  function Iterate(p: Pair, n: nat): Pair {
    if n == 0 then p else BlockMix(Iterate(p, n - 1))
  }

  /** Integerify modulo N. */
  function Integerify(p: Pair): (j: nat)
    ensures j < 1024
  {
    p.hi.x00 % 1024
  }

  /** The second loop of scryptROMix of section 5; entry j of its table is Iterate(start, j). */
  function Walk(start: Pair, p: Pair, n: nat): Pair {
    if n == 0 then p
    else
      var q := Walk(start, p, n - 1);
      BlockMix(XorPair(q, Iterate(start, Integerify(q))))
  }

  function ROMix(start: Pair): Pair {
    Walk(start, Iterate(start, 1024), 1024)
  }

  function ScryptSpec(pbkdf2: Kdf, input: seq<Byte>): seq<Byte>
    requires |pbkdf2(input, input, 128)| == 128
  {
    pbkdf2(input, Encode(ROMix(Decode(pbkdf2(input, input, 128)))), 32)
  }

  // ----- the scalar form

  /** Writes the words of a block into an array. */
  method StoreBlock(a: array<Word>, off: nat, x: Block)
    requires off + 16 <= a.Length
    modifies a
    ensures BlockAt(a[..], off) == x
    ensures forall i :: 0 <= i < a.Length && !(off <= i < off + 16) ==> a[i] == old(a[i])
  {
    for i := 0 to 16
      invariant forall k :: 0 <= k < i ==> a[off + k] == WordOf(x, k)
      invariant forall k :: 0 <= k < a.Length && !(off <= k < off + i) ==> a[k] == old(a[k])
    {
      a[off + i] := WordOf(x, i);
    }
    BlockAtIs(a[..], off, x);
  }

  /** xor_salsa8: sixteen variables, four double rounds. */
  method XorSalsa8Words(b: Block, bx: Block) returns (r: Block)
    ensures r == XorSalsa8(b, bx)
  {
    hide Mix7, Mix9, Mix13, Mix18, Xor, Add;
    var start := XorBlock(b, bx);
    var x00, x01, x02, x03 := start.x00, start.x01, start.x02, start.x03;
    var x04, x05, x06, x07 := start.x04, start.x05, start.x06, start.x07;
    var x08, x09, x10, x11 := start.x08, start.x09, start.x10, start.x11;
    var x12, x13, x14, x15 := start.x12, start.x13, start.x14, start.x15;
    var i := 0;
    while i < 8
      invariant 0 <= i <= 8 && i % 2 == 0
      invariant Block(x00, x01, x02, x03, x04, x05, x06, x07, x08, x09, x10, x11, x12, x13, x14, x15)
                == Rounds(start, i / 2)
    {
      ghost var x := Block(x00, x01, x02, x03, x04, x05, x06, x07, x08, x09, x10, x11, x12, x13, x14, x15);
      x04 := Mix7(x04, x00, x12);  x09 := Mix7(x09, x05, x01);
      x14 := Mix7(x14, x10, x06);  x03 := Mix7(x03, x15, x11);
      x08 := Mix9(x08, x04, x00);  x13 := Mix9(x13, x09, x05);
      x02 := Mix9(x02, x14, x10);  x07 := Mix9(x07, x03, x15);
      x12 := Mix13(x12, x08, x04);  x01 := Mix13(x01, x13, x09);
      x06 := Mix13(x06, x02, x14);  x11 := Mix13(x11, x07, x03);
      x00 := Mix18(x00, x12, x08);  x05 := Mix18(x05, x01, x13);
      x10 := Mix18(x10, x06, x02);  x15 := Mix18(x15, x11, x07);
      assert Block(x00, x01, x02, x03, x04, x05, x06, x07, x08, x09, x10, x11, x12, x13, x14, x15) == ColumnRound(x);
      x01 := Mix7(x01, x00, x03);  x06 := Mix7(x06, x05, x04);
      x11 := Mix7(x11, x10, x09);  x12 := Mix7(x12, x15, x14);
      x02 := Mix9(x02, x01, x00);  x07 := Mix9(x07, x06, x05);
      x08 := Mix9(x08, x11, x10);  x13 := Mix9(x13, x12, x15);
      x03 := Mix13(x03, x02, x01);  x04 := Mix13(x04, x07, x06);
      x09 := Mix13(x09, x08, x11);  x14 := Mix13(x14, x13, x12);
      x00 := Mix18(x00, x03, x02);  x05 := Mix18(x05, x04, x07);
      x10 := Mix18(x10, x09, x08);  x15 := Mix18(x15, x14, x13);
      assert Block(x00, x01, x02, x03, x04, x05, x06, x07, x08, x09, x10, x11, x12, x13, x14, x15)
             == RowRound(ColumnRound(x));
      i := i + 2;
    }
    r := AddBlock(start, Block(x00, x01, x02, x03, x04, x05, x06, x07, x08, x09, x10, x11, x12, x13, x14, x15));
  }

  lemma SameBlock(s: seq<Word>, t: seq<Word>, i: nat, j: nat)
    requires i + 16 <= |s| && j + 16 <= |t| && s[i..i + 16] == t[j..j + 16]
    ensures BlockAt(s, i) == BlockAt(t, j)
  {
    hide BlockAt, WordOf;
    forall k | 0 <= k < 16 ensures s[i + k] == WordOf(BlockAt(t, j), k) {
      assert s[i + k] == s[i..i + 16][k] == t[j..j + 16][k] == t[j + k];
      WordOfBlockAt(t, j, k);
    }
    BlockAtIs(s, i, BlockAt(t, j));
  }

  lemma SamePair(s: seq<Word>, t: seq<Word>, i: nat, j: nat)
    requires i + 32 <= |s| && j + 32 <= |t| && s[i..i + 32] == t[j..j + 32]
    ensures PairAt(s, i) == PairAt(t, j)
  {
    hide BlockAt;
    var u := s[i..i + 32];
    assert s[i..i + 16] == u[..16] == t[j..j + 16];
    assert s[i + 16..i + 32] == u[16..] == t[j + 16..j + 32];
    SameBlock(s, t, i, j);
    SameBlock(s, t, i + 16, j + 16);
  }

  /** One step of either loop: both halves of X through xor_salsa8, in place. */
  method MixWords(x: array<Word>)
    requires x.Length == 32
    modifies x
    ensures PairAt(x[..], 0) == BlockMix(old(PairAt(x[..], 0)))
  {
    hide XorSalsa8, BlockAt;
    var lo := XorSalsa8Words(BlockAt(x[..], 0), BlockAt(x[..], 16));
    StoreBlock(x, 0, lo);
    SameBlock(x[..], old(x[..]), 16, 16);
    var hi := XorSalsa8Words(BlockAt(x[..], 16), BlockAt(x[..], 0));
    label L:
    StoreBlock(x, 16, hi);
    SameBlock(x[..], old@L(x[..]), 0, 0);
  }

  /** X ^= V[j], word by word. */
  method XorEntry(x: array<Word>, v: array<Word>, j: nat)
    requires x.Length == 32 && x != v && 32 * j + 32 <= v.Length
    modifies x
    ensures PairAt(x[..], 0) == XorPair(old(PairAt(x[..], 0)), PairAt(v[..], 32 * j))
  {
    hide Xor, PairAt, XorPair;
    for k := 0 to 32
      invariant forall i :: 0 <= i < k ==> x[i] == Xor(old(x[i]), v[32 * j + i])
      invariant forall i :: k <= i < 32 ==> x[i] == old(x[i])
    {
      x[k] := Xor(x[k], v[32 * j + k]);
    }
    XorWords(old(x[..]), v[..], j, x[..]);
  }

  lemma XorWords(s: seq<Word>, v: seq<Word>, j: nat, r: seq<Word>)
    requires |s| == |r| == 32 && 32 * j + 32 <= |v|
    requires forall i :: 0 <= i < 32 ==> r[i] == Xor(s[i], v[32 * j + i])
    ensures PairAt(r, 0) == XorPair(PairAt(s, 0), PairAt(v, 32 * j))
  {
    hide Xor;
  }

  /** The table after the first `n` iterations. */
  ghost predicate TableHolds(v: seq<Word>, start: Pair, n: nat) {
    32 * n <= |v| && forall i :: 0 <= i < n ==> PairAt(v, 32 * i) == Iterate(start, i)
  }

  /** memcpy of X into entry i. */
  method StoreEntry(v: array<Word>, x: array<Word>, i: nat, ghost start: Pair)
    requires x.Length == 32 && x != v && 32 * i + 32 <= v.Length
    requires TableHolds(v[..], start, i) && PairAt(x[..], 0) == Iterate(start, i)
    modifies v
    ensures TableHolds(v[..], start, i + 1)
  {
    hide PairAt, Iterate;
    for k := 0 to 32
      invariant forall m :: 0 <= m < k ==> v[32 * i + m] == x[m]
      invariant forall m :: 0 <= m < 32 * i ==> v[m] == old(v[m])
    {
      v[32 * i + k] := x[k];
    }
    forall m | 0 <= m < i + 1 ensures PairAt(v[..], 32 * m) == Iterate(start, m) {
      if m == i {
        assert v[..][32 * i..32 * i + 32] == x[..][0..32];
        SamePair(v[..], x[..], 32 * i, 0);
      } else {
        assert v[..][32 * m..32 * m + 32] == old(v[..])[32 * m..32 * m + 32];
        SamePair(v[..], old(v[..]), 32 * m, 32 * m);
      }
    }
  }

  method LoadWords(b: seq<Byte>) returns (x: array<Word>)
    requires |b| == 128
    ensures fresh(x) && x.Length == 32 && PairAt(x[..], 0) == Decode(b)
  {
    hide PairAt, Le32Dec;
    x := new Word[32];
    for k := 0 to 32
      invariant forall i :: 0 <= i < k ==> x[i] == Le32Dec(b, 4 * i)
    {
      x[k] := Le32Dec(b, 4 * k);
    }
    assert x[..] == Words(b);
  }

  method StoreBytes(x: array<Word>) returns (bytes: seq<Byte>)
    requires x.Length == 32
    ensures bytes == Encode(PairAt(x[..], 0))
  {
    hide Encode, PairAt, ByteOf;
    var b := new Byte[128];
    for k := 0 to 32
      invariant forall m :: 0 <= m < 4 * k ==> b[m] == ByteOf(x[m / 4], m % 4)
    {
      b[4 * k] := ByteOf(x[k], 0);
      b[4 * k + 1] := ByteOf(x[k], 1);
      b[4 * k + 2] := ByteOf(x[k], 2);
      b[4 * k + 3] := ByteOf(x[k], 3);
    }
    EncodeIs(b[..], x[..]);
    bytes := b[..];
  }

  /** The two loops of scrypt_1024_1_1_256_sp_generic. */
  method ROMixWords(x: array<Word>)
    requires x.Length == 32
    modifies x
    ensures PairAt(x[..], 0) == ROMix(old(PairAt(x[..], 0)))
  {
    hide Iterate, Walk, PairAt, BlockMix, XorPair;
    ghost var start := PairAt(x[..], 0);
    var v := new Word[32 * 1024];
    IterateStarts(start);
    for i := 0 to 1024
      invariant PairAt(x[..], 0) == Iterate(start, i)
      invariant TableHolds(v[..], start, i)
    {
      StoreEntry(v, x, i, start);
      MixWords(x);
      IterateGoesOn(start, i);
    }
    WalkStarts(start, Iterate(start, 1024));
    for i := 0 to 1024
      invariant PairAt(x[..], 0) == Walk(start, Iterate(start, 1024), i)
      invariant TableHolds(v[..], start, 1024)
    {
      var j := x[16] % 1024;
      IntegerifyIs(x[..]);
      XorEntry(x, v, j);
      MixWords(x);
      WalkGoesOn(start, Iterate(start, 1024), i);
    }
  }

  /** scrypt_1024_1_1_256_sp_generic. */
  method ScryptGeneric(pbkdf2: Kdf, input: seq<Byte>) returns (output: seq<Byte>)
    requires GivesLength(pbkdf2)
    ensures output == ScryptSpec(pbkdf2, input)
  {
    hide PairAt, Decode, Encode, ROMix;
    var x := LoadWords(pbkdf2(input, input, 128));
    ROMixWords(x);
    var bytes := StoreBytes(x);
    output := pbkdf2(input, bytes, 32);
  }

  lemma IterateStarts(p: Pair)
    ensures Iterate(p, 0) == p
  {
  }

  lemma IterateGoesOn(p: Pair, n: nat)
    ensures Iterate(p, n + 1) == BlockMix(Iterate(p, n))
  {
  }

  lemma WalkStarts(start: Pair, p: Pair)
    ensures Walk(start, p, 0) == p
  {
  }

  lemma WalkGoesOn(start: Pair, p: Pair, n: nat)
    ensures var q := Walk(start, p, n);
            Walk(start, p, n + 1) == BlockMix(XorPair(q, Iterate(start, Integerify(q))))
  {
  }

  lemma IntegerifyIs(x: seq<Word>)
    requires |x| == 32
    ensures Integerify(PairAt(x, 0)) == x[16] % 1024
  {
  }

  lemma EncodeIs(bytes: seq<Byte>, x: seq<Word>)
    requires |bytes| == 128 && |x| == 32
    requires forall m :: 0 <= m < 128 ==> bytes[m] == ByteOf(x[m / 4], m % 4)
    ensures bytes == Encode(PairAt(x, 0))
  {
    forall m | 0 <= m < 128 ensures bytes[m] == ByteOf(WordOfPair(PairAt(x, 0), m / 4), m % 4) {
      WordOfPairAt(x, m / 4);
    }
  }

  lemma WordOfPairAt(x: seq<Word>, k: nat)
    requires |x| == 32 && k < 32
    ensures WordOfPair(PairAt(x, 0), k) == x[k]
  {
    if k < 16 {
      WordOfBlockAt(x, 0, k);
    } else {
      WordOfBlockAt(x, 16, k - 16);
    }
  }
}
