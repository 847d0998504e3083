/** The vector implementation of scrypt (src/crypto/scrypt-sse2.cpp) and its agreement with
    the scalar one on every input. */
module ScryptSse2 {
  import opened Salsa
  import opened Scrypt

  function RegsAt(s: seq<Four>, off: nat): Regs
    requires off + 4 <= |s|
  {
    Regs(s[off], s[off + 1], s[off + 2], s[off + 3])
  }

  /** Eight vectors hold a pair of blocks in permuted lanes. */
  ghost predicate InLanes(s: seq<Four>, off: nat, p: Pair) {
    off + 8 <= |s| && RegsAt(s, off) == Lanes(p.lo) && RegsAt(s, off + 4) == Lanes(p.hi)
  }

  /** xor_salsa8_sse2 on two halves of X. */
  method XorSalsa8InPlace(x: array<Four>, b: nat, bx: nat)
    requires x.Length == 8 && b + 4 <= 8 && bx + 4 <= 8 && (b + 4 <= bx || bx + 4 <= b)
    modifies x
    ensures RegsAt(x[..], b) == VecXorSalsa8(old(RegsAt(x[..], b)), old(RegsAt(x[..], bx)))
    ensures forall i :: 0 <= i < 8 && !(b <= i < b + 4) ==> x[i] == old(x[i])
  {
    hide VecMix7, VecMix9, VecMix13, VecMix18, Shuffle, XorVec, AddVec;
    x[b] := XorVec(x[b], x[bx]);
    x[b + 1] := XorVec(x[b + 1], x[bx + 1]);
    x[b + 2] := XorVec(x[b + 2], x[bx + 2]);
    x[b + 3] := XorVec(x[b + 3], x[bx + 3]);
    var x0, x1, x2, x3 := x[b], x[b + 1], x[b + 2], x[b + 3];
    ghost var start := Regs(x0, x1, x2, x3);
    var i := 0;
    while i < 8
      invariant 0 <= i <= 8 && i % 2 == 0
      invariant Regs(x0, x1, x2, x3) == VecRounds(start, i / 2)
    {
      x1 := VecMix7(x1, x0, x3);
      x2 := VecMix9(x2, x1, x0);
      x3 := VecMix13(x3, x2, x1);
      x0 := VecMix18(x0, x3, x2);
      x1 := Shuffle(x1, 0x93);
      x2 := Shuffle(x2, 0x4E);
      x3 := Shuffle(x3, 0x39);
      x3 := VecMix7(x3, x0, x1);
      x2 := VecMix9(x2, x3, x0);
      x1 := VecMix13(x1, x2, x3);
      x0 := VecMix18(x0, x1, x2);
      x1 := Shuffle(x1, 0x39);
      x2 := Shuffle(x2, 0x4E);
      x3 := Shuffle(x3, 0x93);
      i := i + 2;
    }
    x[b] := AddVec(x[b], x0);
    x[b + 1] := AddVec(x[b + 1], x1);
    x[b + 2] := AddVec(x[b + 2], x2);
    x[b + 3] := AddVec(x[b + 3], x3);
  }

  method MixVectors(x: array<Four>, ghost p: Pair)
    requires x.Length == 8 && InLanes(x[..], 0, p)
    modifies x
    ensures InLanes(x[..], 0, BlockMix(p))
  {
    hide VecXorSalsa8, XorSalsa8, Lanes;
    ghost var lo := XorSalsa8(p.lo, p.hi);
    XorSalsa8InLanes(p.lo, p.hi);
    XorSalsa8InLanes(p.hi, lo);
    XorSalsa8InPlace(x, 0, 4);
    XorSalsa8InPlace(x, 4, 0);
  }

  method XorEntryVectors(x: array<Four>, v: array<Four>, j: nat, ghost p: Pair, ghost q: Pair)
    requires x.Length == 8 && x != v && 8 * j + 8 <= v.Length
    requires InLanes(x[..], 0, p) && InLanes(v[..], 8 * j, q)
    modifies x
    ensures InLanes(x[..], 0, XorPair(p, q))
  {
    hide XorVec, XorBlock, Lanes;
    XorBlockInLanes(p.lo, q.lo);
    XorBlockInLanes(p.hi, q.hi);
    for k := 0 to 8
      invariant forall i :: 0 <= i < k ==> x[i] == XorVec(old(x[i]), v[8 * j + i])
      invariant forall i :: k <= i < 8 ==> x[i] == old(x[i])
    {
      x[k] := XorVec(x[k], v[8 * j + k]);
    }
  }

  ghost predicate TableInLanes(v: seq<Four>, start: Pair, n: nat) {
    8 * n <= |v| && forall i :: 0 <= i < n ==> InLanes(v, 8 * i, Iterate(start, i))
  }

  lemma SameLanes(s: seq<Four>, t: seq<Four>, i: nat, j: nat, p: Pair)
    requires InLanes(t, j, p) && i + 8 <= |s| && s[i..i + 8] == t[j..j + 8]
    ensures InLanes(s, i, p)
  {
    assert t[j] == t[j..j + 8][0] && t[j + 1] == t[j..j + 8][1];
    assert t[j + 2] == t[j..j + 8][2] && t[j + 3] == t[j..j + 8][3];
    assert t[j + 4] == t[j..j + 8][4] && t[j + 5] == t[j..j + 8][5];
    assert t[j + 6] == t[j..j + 8][6] && t[j + 7] == t[j..j + 8][7];
    assert s[i] == s[i..i + 8][0] && s[i + 1] == s[i..i + 8][1];
    assert s[i + 2] == s[i..i + 8][2] && s[i + 3] == s[i..i + 8][3];
    assert s[i + 4] == s[i..i + 8][4] && s[i + 5] == s[i..i + 8][5];
    assert s[i + 6] == s[i..i + 8][6] && s[i + 7] == s[i..i + 8][7];
  }

  method StoreVectors(v: array<Four>, x: array<Four>, i: nat, ghost start: Pair)
    requires x.Length == 8 && x != v && 8 * i + 8 <= v.Length
    requires TableInLanes(v[..], start, i) && InLanes(x[..], 0, Iterate(start, i))
    modifies v
    ensures TableInLanes(v[..], start, i + 1)
  {
    hide InLanes, Iterate;
    for k := 0 to 8
      invariant forall m :: 0 <= m < k ==> v[8 * i + m] == x[m]
      invariant forall m :: 0 <= m < 8 * i ==> v[m] == old(v[m])
    {
      v[8 * i + k] := x[k];
    }
    forall m | 0 <= m < i + 1 ensures InLanes(v[..], 8 * m, Iterate(start, m)) {
      if m == i {
        assert v[..][8 * i..8 * i + 8] == x[..][0..8];
        SameLanes(v[..], x[..], 8 * i, 0, Iterate(start, i));
      } else {
        assert v[..][8 * m..8 * m + 8] == old(v[..])[8 * m..8 * m + 8];
        SameLanes(v[..], old(v[..]), 8 * m, 8 * m, Iterate(start, m));
      }
    }
  }

  lemma IntegerifyInLanes(s: seq<Four>, p: Pair)
    requires InLanes(s, 0, p)
    ensures s[4].w0 % 1024 == Integerify(p)
  {
  }

  /** The two loops of scrypt_1024_1_1_256_sp_sse2. */
  method ROMixVectors(x: array<Four>, ghost start: Pair)
    requires x.Length == 8 && InLanes(x[..], 0, start)
    modifies x
    ensures InLanes(x[..], 0, ROMix(start))
  {
    hide Iterate, Walk, InLanes, BlockMix, XorPair;
    var v := new Four[8 * 1024];
    IterateStarts(start);
    for i := 0 to 1024
      invariant InLanes(x[..], 0, Iterate(start, i))
      invariant TableInLanes(v[..], start, i)
    {
      StoreVectors(v, x, i, start);
      MixVectors(x, Iterate(start, i));
      IterateGoesOn(start, i);
    }
    ghost var middle := Iterate(start, 1024);
    WalkStarts(start, middle);
    for i := 0 to 1024
      invariant InLanes(x[..], 0, Walk(start, middle, i))
      invariant TableInLanes(v[..], start, 1024)
    {
      ghost var p := Walk(start, middle, i);
      var j := x[4].w0 % 1024;
      IntegerifyInLanes(x[..], p);
      XorEntryVectors(x, v, j, p, Iterate(start, j));
      MixVectors(x, XorPair(p, Iterate(start, j)));
      WalkGoesOn(start, middle, i);
    }
  }

  // ----- the lane permutation

  function Five(i: nat): (r: nat)
    ensures r < 16
  {
    i * 5 % 16
  }

  function Thirteen(i: nat): (r: nat)
    ensures r < 16
  {
    i * 13 % 16
  }

  lemma FiveIsBijective(i: nat)
    requires i < 16
    ensures Thirteen(Five(i)) == i && Five(Thirteen(i)) == i
  {
    assert 0 * 5 % 16 == 0 && 0 * 13 % 16 == 0 && 0 * 13 % 16 == 0 && 0 * 5 % 16 == 0;
    assert 1 * 5 % 16 == 5 && 5 * 13 % 16 == 1 && 1 * 13 % 16 == 13 && 13 * 5 % 16 == 1;
    assert 2 * 5 % 16 == 10 && 10 * 13 % 16 == 2 && 2 * 13 % 16 == 10 && 10 * 5 % 16 == 2;
    assert 3 * 5 % 16 == 15 && 15 * 13 % 16 == 3 && 3 * 13 % 16 == 7 && 7 * 5 % 16 == 3;
    assert 4 * 5 % 16 == 4 && 4 * 13 % 16 == 4 && 4 * 13 % 16 == 4 && 4 * 5 % 16 == 4;
    assert 5 * 5 % 16 == 9 && 9 * 13 % 16 == 5 && 5 * 13 % 16 == 1 && 1 * 5 % 16 == 5;
    assert 6 * 5 % 16 == 14 && 14 * 13 % 16 == 6 && 6 * 13 % 16 == 14 && 14 * 5 % 16 == 6;
    assert 7 * 5 % 16 == 3 && 3 * 13 % 16 == 7 && 7 * 13 % 16 == 11 && 11 * 5 % 16 == 7;
    assert 8 * 5 % 16 == 8 && 8 * 13 % 16 == 8 && 8 * 13 % 16 == 8 && 8 * 5 % 16 == 8;
    assert 9 * 5 % 16 == 13 && 13 * 13 % 16 == 9 && 9 * 13 % 16 == 5 && 5 * 5 % 16 == 9;
    assert 10 * 5 % 16 == 2 && 2 * 13 % 16 == 10 && 10 * 13 % 16 == 2 && 2 * 5 % 16 == 10;
    assert 11 * 5 % 16 == 7 && 7 * 13 % 16 == 11 && 11 * 13 % 16 == 15 && 15 * 5 % 16 == 11;
    assert 12 * 5 % 16 == 12 && 12 * 13 % 16 == 12 && 12 * 13 % 16 == 12 && 12 * 5 % 16 == 12;
    assert 13 * 5 % 16 == 1 && 1 * 13 % 16 == 13 && 13 * 13 % 16 == 9 && 9 * 5 % 16 == 13;
    assert 14 * 5 % 16 == 6 && 6 * 13 % 16 == 14 && 14 * 13 % 16 == 6 && 6 * 5 % 16 == 14;
    assert 15 * 5 % 16 == 11 && 11 * 13 % 16 == 15 && 15 * 13 % 16 == 3 && 3 * 5 % 16 == 15;
  }

  /** The word that lane m of the eight vectors holds. */
  function Target(m: nat): (w: nat)
    requires m < 32
    ensures w < 32
  {
    if m < 16 then Five(m) else 16 + Five(m - 16)
  }

  function LaneOf(w: nat): (m: nat)
    requires w < 32
    ensures m < 32
  {
    if w < 16 then Thirteen(w) else 16 + Thirteen(w - 16)
  }

  lemma TargetIsBijective(m: nat)
    requires m < 32
    ensures LaneOf(Target(m)) == m && Target(LaneOf(m)) == m
  {
    hide Five, Thirteen;
    FiveIsBijective(if m < 16 then m else m - 16);
  }

  function LaneAt(s: seq<Four>, m: nat): Word
    requires |s| == 8 && m < 32
  {
    Lane(s[m / 4], m % 4)
  }

  function SetLane(x: Four, c: nat, w: Word): Four
    requires c < 4
  {
    if c == 0 then x.(w0 := w) else if c == 1 then x.(w1 := w) else if c == 2 then x.(w2 := w) else x.(w3 := w)
  }

  /** Lane i of four registers is word i * 5 % 16. */
  lemma LaneIsWord(s: seq<Four>, off: nat, x: Block, i: nat)
    requires |s| == 8 && (off == 0 || off == 4) && RegsAt(s, off) == Lanes(x) && i < 16
    ensures LaneAt(s, 4 * off + i) == WordOf(x, Five(i))
  {
    hide Five;
    FiveTable();
  }

  lemma VectorIs(s: seq<Four>, q: nat)
    requires |s| == 8 && q < 8
    ensures s[q] == Four(LaneAt(s, 4 * q), LaneAt(s, 4 * q + 1), LaneAt(s, 4 * q + 2), LaneAt(s, 4 * q + 3))
  {
  }

  lemma FiveTable()
    ensures Five(0) == 0 && Five(1) == 5 && Five(2) == 10 && Five(3) == 15
    ensures Five(4) == 4 && Five(5) == 9 && Five(6) == 14 && Five(7) == 3
    ensures Five(8) == 8 && Five(9) == 13 && Five(10) == 2 && Five(11) == 7
    ensures Five(12) == 12 && Five(13) == 1 && Five(14) == 6 && Five(15) == 11
  {
  }

  lemma WordsMakeLanes(s: seq<Four>, off: nat, x: Block)
    requires |s| == 8 && (off == 0 || off == 4)
    requires forall i :: 0 <= i < 16 ==> LaneAt(s, 4 * off + i) == WordOf(x, Five(i))
    ensures RegsAt(s, off) == Lanes(x)
  {
    hide LaneAt, Five;
    FiveTable();
    VectorIs(s, off);
    VectorIs(s, off + 1);
    VectorIs(s, off + 2);
    VectorIs(s, off + 3);
    assert LaneAt(s, 4 * off + 0) == WordOf(x, 0) && LaneAt(s, 4 * off + 1) == WordOf(x, 5);
    assert LaneAt(s, 4 * off + 2) == WordOf(x, 10) && LaneAt(s, 4 * off + 3) == WordOf(x, 15);
    assert LaneAt(s, 4 * off + 4) == WordOf(x, 4) && LaneAt(s, 4 * off + 5) == WordOf(x, 9);
    assert LaneAt(s, 4 * off + 6) == WordOf(x, 14) && LaneAt(s, 4 * off + 7) == WordOf(x, 3);
    assert LaneAt(s, 4 * off + 8) == WordOf(x, 8) && LaneAt(s, 4 * off + 9) == WordOf(x, 13);
    assert LaneAt(s, 4 * off + 10) == WordOf(x, 2) && LaneAt(s, 4 * off + 11) == WordOf(x, 7);
    assert LaneAt(s, 4 * off + 12) == WordOf(x, 12) && LaneAt(s, 4 * off + 13) == WordOf(x, 1);
    assert LaneAt(s, 4 * off + 14) == WordOf(x, 6) && LaneAt(s, 4 * off + 15) == WordOf(x, 11);
  }

  // ----- loading and storing

  method LoadVectors(b: seq<Byte>) returns (x: array<Four>)
    requires |b| == 128
    ensures fresh(x) && x.Length == 8 && InLanes(x[..], 0, Decode(b))
  {
    hide InLanes, Decode, Le32Dec, Five;
    x := new Four[8];
    for k := 0 to 2
      invariant forall m :: 0 <= m < 16 * k ==> LaneAt(x[..], m) == Le32Dec(b, 4 * Target(m))
    {
      for i := 0 to 16
        invariant forall m :: 0 <= m < 16 * k + i ==> LaneAt(x[..], m) == Le32Dec(b, 4 * Target(m))
      {
        var n := 16 * k + i;
        assert Target(n) == 16 * k + Five(i);
        x[n / 4] := SetLane(x[n / 4], n % 4, Le32Dec(b, (16 * k + Five(i)) * 4));
      }
    }
    LoadedLanes(b, x[..]);
  }

  lemma LoadedLanes(b: seq<Byte>, s: seq<Four>)
    requires |b| == 128 && |s| == 8
    requires forall m :: 0 <= m < 32 ==> LaneAt(s, m) == Le32Dec(b, 4 * Target(m))
    ensures InLanes(s, 0, Decode(b))
  {
    hide LaneAt, Le32Dec, RegsAt, Lanes, Five, WordOf, BlockAt;
    var w := Words(b);
    forall i | 0 <= i < 16 ensures LaneAt(s, 4 * 0 + i) == WordOf(BlockAt(w, 0), Five(i)) {
      WordOfBlockAt(w, 0, Five(i));
      assert LaneAt(s, i) == Le32Dec(b, 4 * Target(i));
    }
    WordsMakeLanes(s, 0, BlockAt(w, 0));
    forall i | 0 <= i < 16 ensures LaneAt(s, 4 * 4 + i) == WordOf(BlockAt(w, 16), Five(i)) {
      WordOfBlockAt(w, 16, Five(i));
      assert LaneAt(s, 16 + i) == Le32Dec(b, 4 * Target(16 + i));
    }
    WordsMakeLanes(s, 4, BlockAt(w, 16));
  }

  /** Word Target(m) of the output has been written from lane m. */
  ghost predicate Written(b: seq<Byte>, s: seq<Four>, m: nat)
    requires |b| == 128 && |s| == 8 && m < 32
  {
    forall j :: 0 <= j < 4 ==> b[4 * Target(m) + j] == ByteOf(LaneAt(s, m), j)
  }

  method StoreLanes(x: array<Four>, ghost p: Pair) returns (bytes: seq<Byte>)
    requires x.Length == 8 && InLanes(x[..], 0, p)
    ensures bytes == Encode(p)
  {
    hide InLanes, Encode, ByteOf, Five, Thirteen, LaneAt;
    bytes := seq(128, _ => 0);
    for k := 0 to 2
      invariant |bytes| == 128
      invariant forall m :: 0 <= m < 16 * k ==> Written(bytes, x[..], m)
    {
      for i := 0 to 16
        invariant |bytes| == 128
        invariant forall m :: 0 <= m < 16 * k + i ==> Written(bytes, x[..], m)
      {
        var n := 16 * k + i;
        assert Target(n) == 16 * k + Five(i);
        bytes := WriteWord(bytes, x[..], n);
      }
    }
    StoredBytes(bytes, x[..], p);
  }

  /** le32enc of lane n. */
  method WriteWord(b: seq<Byte>, s: seq<Four>, n: nat) returns (b': seq<Byte>)
    requires |b| == 128 && |s| == 8 && n < 32
    requires forall m :: 0 <= m < n ==> Written(b, s, m)
    ensures |b'| == 128
    ensures forall m :: 0 <= m < n + 1 ==> Written(b', s, m)
  {
    hide ByteOf, Target, LaneAt;
    var off, w := 4 * Target(n), LaneAt(s, n);
    b' := b[off := ByteOf(w, 0)][off + 1 := ByteOf(w, 1)][off + 2 := ByteOf(w, 2)][off + 3 := ByteOf(w, 3)];
    forall m | 0 <= m < n + 1 ensures Written(b', s, m) {
      if m < n {
        TargetIsBijective(m);
        TargetIsBijective(n);
        assert Written(b, s, m);
      }
    }
  }

  lemma StoredBytes(b: seq<Byte>, s: seq<Four>, p: Pair)
    requires |b| == 128 && |s| == 8 && InLanes(s, 0, p)
    requires forall m :: 0 <= m < 32 ==> Written(b, s, m)
    ensures b == Encode(p)
  {
    hide ByteOf, LaneAt, WordOfPair, RegsAt, Lanes, Target, LaneOf;
    forall q | 0 <= q < 128 ensures b[q] == ByteOf(WordOfPair(p, q / 4), q % 4) {
      var m := LaneOf(q / 4);
      TargetIsBijective(q / 4);
      assert Written(b, s, m);
      LaneOfPair(s, p, m);
    }
  }

  lemma LaneOfPair(s: seq<Four>, p: Pair, m: nat)
    requires |s| == 8 && InLanes(s, 0, p) && m < 32
    ensures LaneAt(s, m) == WordOfPair(p, Target(m))
  {
    hide LaneAt, Five, WordOf, RegsAt, Lanes;
    if m < 16 {
      LaneIsWord(s, 0, p.lo, m);
    } else {
      LaneIsWord(s, 4, p.hi, m - 16);
    }
  }

  /** scrypt_1024_1_1_256_sp_sse2 computes the same function as the scalar form. */
  method ScryptVectors(pbkdf2: Kdf, input: seq<Byte>) returns (output: seq<Byte>)
    requires GivesLength(pbkdf2)
    ensures output == ScryptSpec(pbkdf2, input)
  {
    hide InLanes, Decode, Encode, ROMix;
    ghost var start := Decode(pbkdf2(input, input, 128));
    var x := LoadVectors(pbkdf2(input, input, 128));
    ROMixVectors(x, start);
    var bytes := StoreLanes(x, ROMix(start));
    output := pbkdf2(input, bytes, 32);
  }

  /** Whichever implementation scrypt_detect_sse2 chooses, the hash is the same. */
  method ScryptDetected(pbkdf2: Kdf, input: seq<Byte>, sse2: bool) returns (output: seq<Byte>)
    requires GivesLength(pbkdf2)
    ensures output == ScryptSpec(pbkdf2, input)
  {
    if sse2 {
      output := ScryptVectors(pbkdf2, input);
    } else {
      output := ScryptGeneric(pbkdf2, input);
    }
  }
}
