/** The compact form of a target, 23 bits of mantissa and a size in bytes
    (src/structs/uint256.cpp, SetCompact and GetCompact). */
module Compact {
  import opened Powers
  import opened Uint256

  const SIGN := 0x80_0000
  const EXPONENT := 0x100_0000

  function Shl8(n: nat, k: nat): nat {
    if k == 0 then n else 256 * Shl8(n, k - 1)
  }

  function Shr8(n: nat, k: nat): nat {
    if k == 0 then n else Shr8(n, k - 1) / 256
  }

  /** A shift to the left that loses what does not fit. */
  function ShlWord(n: nat, k: nat): nat {
    if k == 0 then n else (256 * ShlWord(n, k - 1)) % W
  }

  // ----- encoding and decoding

  function ByteSize(t: nat): nat {
    (Bits(t) + 7) / 8
  }

  /** The three highest bytes. */
  function Mantissa(t: nat): nat {
    if ByteSize(t) <= 3 then Shl8(t, 3 - ByteSize(t)) else Shr8(t, ByteSize(t) - 3)
  }

  /** GetCompact of a number that is not negative. */
  function GetCompact(t: nat): nat {
    var m := Mantissa(t);
    if m / SIGN % 2 == 1 then m / 256 + (ByteSize(t) + 1) * EXPONENT
    else m + ByteSize(t) * EXPONENT
  }

  datatype Decoded = Decoded(value: nat, negative: bool, overflow: bool)

  function SetCompact(c: nat): Decoded {
    var size, mantissa := c / EXPONENT, c % SIGN;
    var word := if size <= 3 then Shr8(mantissa, 3 - size) else mantissa;
    Decoded(if size <= 3 then word else ShlWord(word, size - 3),
            word != 0 && c / SIGN % 2 == 1,
            word != 0 && (size > 34 || (word > 0xff && size > 33) || (word > 0xffff && size > 32)))
  }

  // ----- shifts by bytes

  lemma {:induction false} ShrFirst(n: nat, k: nat)
    requires k > 0
    ensures Shr8(n, k) == Shr8(n / 256, k - 1)
  {
    if k > 1 {
      ShrFirst(n, k - 1);
    }
  }

  lemma {:induction false} ShlFirst(n: nat, k: nat)
    ensures Shl8(256 * n, k) == Shl8(n, k + 1)
  {
    if k > 0 {
      ShlFirst(n, k - 1);
    }
  }

  lemma {:induction false} ShlGrows(n: nat, m: nat, k: nat)
    requires n <= m
    ensures Shl8(n, k) <= Shl8(m, k)
  {
    if k > 0 {
      ShlGrows(n, m, k - 1);
    }
  }

  lemma {:induction false} ShrUndoesShl(n: nat, k: nat)
    ensures Shr8(Shl8(n, k), k) == n
  {
    if k > 0 {
      ShrFirst(Shl8(n, k), k);
      ShrUndoesShl(n, k - 1);
    }
  }

  /** Shifting right and back rounds down to a multiple. */
  lemma {:induction false} RoundsDown(t: nat, k: nat)
    ensures Shl8(Shr8(t, k), k) <= t < Shl8(Shr8(t, k) + 1, k)
  {
    if k > 0 {
      var x := Shr8(t, k - 1);
      var y := x / 256;
      RoundsDown(t, k - 1);
      ShlGrows(256 * y, x, k - 1);
      ShlGrows(x + 1, 256 * (y + 1), k - 1);
      ShlFirst(y, k - 1);
      ShlFirst(y + 1, k - 1);
    }
  }

  lemma {:induction false} NothingLost(n: nat, k: nat)
    requires Shl8(n, k) < W
    ensures ShlWord(n, k) == Shl8(n, k)
  {
    if k > 0 {
      NothingLost(n, k - 1);
    }
  }

  // ----- sizes in bytes

  lemma Half(n: nat)
    requires n > 0
    ensures Bits(n) == 1 + Bits(n / 2)
  {
  }

  lemma BitsOfByte(n: nat)
    requires 0 < n < 256
    ensures 1 <= Bits(n) <= 8
  {
    BitsBound(n);
    assert Pow2(8) == 256;
    if Bits(n) > 8 {
      Pow2Grows(8, Bits(n) - 1);
    }
  }

  lemma BitsOfMore(n: nat)
    requires n >= 256
    ensures Bits(n) == 8 + Bits(n / 256)
  {
    hide Bits;
    Half(n); Half(n / 2); Half(n / 4); Half(n / 8);
    Half(n / 16); Half(n / 32); Half(n / 64); Half(n / 128);
    assert n / 2 / 2 == n / 4 && n / 4 / 2 == n / 8 && n / 8 / 2 == n / 16 && n / 16 / 2 == n / 32;
    assert n / 32 / 2 == n / 64 && n / 64 / 2 == n / 128 && n / 128 / 2 == n / 256;
  }

  /** One byte less. */
  lemma SizeStep(n: nat)
    ensures n > 0 ==> ByteSize(n) == 1 + ByteSize(n / 256)
    ensures n == 0 <==> ByteSize(n) == 0
  {
    hide Bits;
    BitsOfZero();
    if n >= 256 {
      BitsOfMore(n);
    } else if n > 0 {
      BitsOfByte(n);
    }
  }

  lemma BitsOfZero()
    ensures Bits(0) == 0
  {
  }

  lemma {:induction false} SizeOfShr(n: nat, k: nat)
    requires k <= ByteSize(n)
    ensures ByteSize(Shr8(n, k)) == ByteSize(n) - k
  {
    hide ByteSize;
    if k > 0 {
      SizeOfShr(n, k - 1);
      SizeStep(Shr8(n, k - 1));
    }
  }

  lemma {:induction false} SizeOfShl(n: nat, k: nat)
    requires n > 0
    ensures ByteSize(Shl8(n, k)) == ByteSize(n) + k && Shl8(n, k) > 0
  {
    hide ByteSize;
    if k > 0 {
      SizeOfShl(n, k - 1);
      SizeStep(Shl8(n, k));
    }
  }

  lemma SizeThree(n: nat)
    ensures ByteSize(n) == 3 <==> 0x1_0000 <= n < 0x100_0000
  {
    hide ByteSize;
    SizeStep(n);
    SizeStep(n / 256);
    SizeStep(n / 256 / 256);
    SizeStep(n / 256 / 256 / 256);
  }

  lemma {:induction false} SizeBound(n: nat)
    requires n > 0
    ensures ByteSize(n) > 0 && Shl8(1, ByteSize(n) - 1) <= n
  {
    hide ByteSize;
    SizeStep(n);
    if n >= 256 {
      SizeStep(n / 256);
      SizeBound(n / 256);
    } else {
      SizeStep(0);
    }
  }

  lemma {:induction false} ShlOneGrows(i: nat, j: nat)
    requires i <= j
    ensures Shl8(1, i) <= Shl8(1, j)
  {
    if i < j {
      ShlOneGrows(i, j - 1);
    }
  }

  lemma ThirtyTwoBytes()
    ensures Shl8(1, 32) == W
  {
    assert Shl8(1, 8) == 0x1_0000000000000000;
    assert Shl8(1, 16) == 0x1_0000000000000000_0000000000000000;
    assert Shl8(1, 24) == 0x1_0000000000000000_0000000000000000_0000000000000000;
  }

  lemma FitsIn32(t: nat)
    requires t < W
    ensures ByteSize(t) <= 32
  {
    hide ByteSize;
    if ByteSize(t) > 32 {
      SizeStep(t);
      SizeBound(t);
      ShlOneGrows(32, ByteSize(t) - 1);
      ThirtyTwoBytes();
    }
  }

  lemma MantissaIs(t: nat)
    ensures Mantissa(t) < EXPONENT
    ensures t > 0 ==> Mantissa(t) >= 0x1_0000
    ensures t == 0 ==> Mantissa(t) == 0 && ByteSize(t) == 0
  {
    hide ByteSize;
    SizeStep(t);
    if t > 0 {
      if ByteSize(t) <= 3 {
        SizeOfShl(t, 3 - ByteSize(t));
      } else {
        SizeOfShr(t, ByteSize(t) - 3);
      }
      SizeThree(Mantissa(t));
    }
  }

  // ----- what a compact form stands for

  lemma {:induction false} SizeIsEnough(n: nat)
    ensures n < Shl8(1, ByteSize(n))
  {
    hide ByteSize;
    SizeStep(n);
    if n > 0 {
      SizeIsEnough(n / 256);
      var above := Shl8(1, ByteSize(n / 256));
      assert n / 256 + 1 <= above;
    }
  }

  /** A number of 1 to 3 bytes, shifted, fits into 256 bits if and only if it fits into 32 bytes. */
  lemma ShiftedFitsIff(n: nat, k: nat)
    requires n > 0
    ensures Shl8(n, k) < W <==> ByteSize(n) + k <= 32
  {
    hide ByteSize, Shl8;
    SizeOfShl(n, k);
    var t := Shl8(n, k);
    ThirtyTwoBytes();
    if ByteSize(t) <= 32 {
      SizeIsEnough(t);
      ShlOneGrows(ByteSize(t), 32);
    } else if t < W {
      FitsIn32(t);
    }
  }

  lemma MantissaSize(m: nat)
    requires 0 < m < SIGN
    ensures ByteSize(m) == if m > 0xffff then 3 else if m > 0xff then 2 else 1
  {
    hide ByteSize;
    SizeStep(m);
    SizeStep(m / 256);
    SizeStep(m / 256 / 256);
    SizeStep(m / 256 / 256 / 256);
  }

  /** The mantissa times 256^(size - 3), rounded down; overflow if and only if that does not fit,
      and negative if and only if the sign is set and the mantissa is not shifted out. */
  lemma Decodes(c: nat)
    ensures var d, size, mantissa := SetCompact(c), c / EXPONENT, c % SIGN;
            if size <= 3
            then && Shl8(d.value, 3 - size) <= mantissa < Shl8(d.value + 1, 3 - size) && !d.overflow
                 && (d.negative <==> d.value > 0 && c % EXPONENT >= SIGN)
            else && (d.overflow <==> Shl8(mantissa, size - 3) >= W)
                 && (!d.overflow ==> d.value == Shl8(mantissa, size - 3))
                 && (d.negative <==> mantissa > 0 && c % EXPONENT >= SIGN)
  {
    hide Shl8, Shr8, ShlWord, ByteSize;
    var size, mantissa := c / EXPONENT, c % SIGN;
    SignIs(c);
    if size <= 3 {
      RoundsDown(mantissa, 3 - size);
    } else if mantissa > 0 {
      MantissaSize(mantissa);
      ShiftedFitsIff(mantissa, size - 3);
      if Shl8(mantissa, size - 3) < W {
        NothingLost(mantissa, size - 3);
      }
    } else {
      ShlOfZero(size - 3);
      NothingLost(0, size - 3);
    }
  }

  lemma SignIs(c: nat)
    ensures c / SIGN % 2 == 1 <==> c % EXPONENT >= SIGN
  {
    var q, r := c / EXPONENT, c % EXPONENT;
    assert c == q * EXPONENT + r;
    assert c / SIGN == 2 * q + r / SIGN;
  }

  lemma {:induction false} ShlOfZero(k: nat)
    ensures Shl8(0, k) == 0
  {
    if k > 0 {
      ShlOfZero(k - 1);
    }
  }

  // ----- the round trip

  /** How many low bytes the compact form leaves out. */
  function Dropped(t: nat): nat {
    var used := if Mantissa(t) >= SIGN then 2 else 3;
    if ByteSize(t) <= used then 0 else ByteSize(t) - used
  }

  /** What is kept of the target. */
  function Kept(t: nat): nat {
    Shl8(Shr8(t, Dropped(t)), Dropped(t))
  }

  /** A size and a mantissa of 24 bits, put together and taken apart. */
  lemma Parts(size: nat, m: nat)
    requires m < SIGN
    ensures var c := m + size * EXPONENT;
            c / EXPONENT == size && c % SIGN == m && c / SIGN % 2 == 0
  {
    assert (m + size * EXPONENT) / SIGN == 2 * size;
  }

  lemma SignBit(m: nat)
    requires m < EXPONENT
    ensures m / SIGN % 2 == (if m >= SIGN then 1 else 0)
    ensures m / 256 < SIGN
  {
  }

  lemma CompactParts(t: nat)
    requires t < W
    ensures var c, size := GetCompact(t), ByteSize(t);
            if Mantissa(t) >= SIGN
            then c / EXPONENT == size + 1 && c % SIGN == Mantissa(t) / 256 && c / SIGN % 2 == 0
            else c / EXPONENT == size && c % SIGN == Mantissa(t) && c / SIGN % 2 == 0
  {
    hide ByteSize, Mantissa;
    MantissaIs(t);
    SignBit(Mantissa(t));
    if Mantissa(t) >= SIGN {
      Parts(ByteSize(t) + 1, Mantissa(t) / 256);
    } else {
      Parts(ByteSize(t), Mantissa(t));
    }
  }

  /** A target that is encoded and decoded loses its low bytes and nothing else; the sign and
      overflow flags stay clear. */
  lemma DecodeEncode(t: nat)
    requires t < W
    ensures SetCompact(GetCompact(t)) == Decoded(Kept(t), false, false)
  {
    hide ByteSize, Mantissa, GetCompact, Shl8, Shr8, ShlWord, Kept, Dropped;
    CompactParts(t);
    MantissaIs(t);
    FitsIn32(t);
    KeptIs(t);
  }

  lemma KeptIs(t: nat)
    requires t < W
    ensures var size, m := ByteSize(t), Mantissa(t);
            var size', m' := if m >= SIGN then size + 1 else size, if m >= SIGN then m / 256 else m;
            Kept(t) == if size' <= 3 then Shr8(m', 3 - size') else ShlWord(m', size' - 3)
  {
    hide ByteSize;
    var size, m, k := ByteSize(t), Mantissa(t), Dropped(t);
    RoundsDown(t, k);
    NothingLost(Shr8(t, k), k);
    if size <= 3 {
      ShrUndoesShl(t, 3 - size);
      if m >= SIGN && size < 3 {
        ShrFirst(m, 3 - size);
      }
    }
  }

  /** It never grows, and loses less than one part in 2^15. */
  lemma KeptIsClose(t: nat)
    ensures Kept(t) <= t
    ensures 0x8000 * (t - Kept(t)) <= t
  {
    hide ByteSize, Mantissa;
    var k := Dropped(t);
    RoundsDown(t, k);
    if k > 0 {
      TopIsLarge(t);
      LeadingPart(Shr8(t, k), k);
    }
  }

  lemma TopIsLarge(t: nat)
    requires Dropped(t) > 0
    ensures Shr8(t, Dropped(t)) >= 0x8000
  {
    hide ByteSize;
    SizeStep(t);
    MantissaIs(t);
    if ByteSize(t) == 3 {
      assert Shl8(t, 0) == t;
      assert Shr8(t, 1) == t / 256;
    }
  }

  /** x shifted is at least x times a unit of what is lost. */
  lemma {:induction false} LeadingPart(x: nat, k: nat)
    ensures Shl8(x + 1, k) == Shl8(x, k) + Shl8(1, k)
    ensures x >= 0x8000 ==> 0x8000 * Shl8(1, k) <= Shl8(x, k)
  {
    if k > 0 {
      LeadingPart(x, k - 1);
    }
  }

  /** What is kept encodes to the same compact form: encoding is stable from then on. */
  lemma EncodeKept(t: nat)
    ensures GetCompact(Kept(t)) == GetCompact(t)
  {
    hide ByteSize, Mantissa, GetCompact;
    var k := Dropped(t);
    if k > 0 {
      TopIsLarge(t);
      SameSize(t);
      SameMantissa(t);
      CompactOf(t, Kept(t));
    }
  }

  lemma SameSize(t: nat)
    requires Dropped(t) > 0 && Shr8(t, Dropped(t)) > 0
    ensures ByteSize(Kept(t)) == ByteSize(t)
  {
    hide ByteSize, Mantissa;
    SizeOfShr(t, Dropped(t));
    SizeOfShl(Shr8(t, Dropped(t)), Dropped(t));
  }

  /** The mantissas agree down to the bytes that are used. */
  lemma SameMantissa(t: nat)
    requires Dropped(t) > 0 && ByteSize(Kept(t)) == ByteSize(t)
    ensures if Mantissa(t) >= SIGN then Mantissa(Kept(t)) == Mantissa(t) / 256 * 256
            else Mantissa(Kept(t)) == Mantissa(t)
  {
    hide ByteSize;
    var size, k := ByteSize(t), Dropped(t);
    if size == 3 {
      assert k == 1 && Shl8(t, 0) == t && Shr8(t, 0) == t && Shr8(t, 1) == t / 256;
      assert Shl8(t / 256, 0) == t / 256 && Shl8(t / 256, 1) == 256 * (t / 256);
      assert Shl8(Kept(t), 0) == Kept(t);
    } else {
      var x := Shr8(t, k);
      ShrUndoesShl(x, k);
      if Mantissa(t) >= SIGN {
        ShrOfShl(x, k, k - 1);
      }
    }
  }

  lemma {:induction false} ShrOfShl(x: nat, k: nat, j: nat)
    requires k == j + 1
    ensures Shr8(Shl8(x, k), j) == 256 * x
  {
    ShlFirst(x, j);
    ShrUndoesShl(256 * x, j);
  }

  lemma CompactOf(t: nat, u: nat)
    requires ByteSize(u) == ByteSize(t)
    requires if Mantissa(t) >= SIGN then Mantissa(u) == Mantissa(t) / 256 * 256 else Mantissa(u) == Mantissa(t)
    ensures GetCompact(u) == GetCompact(t)
  {
    hide ByteSize, Mantissa;
    MantissaIs(t);
  }

  /** No compact form stands for the number with all bits set: adding one never wraps. */
  lemma DecodedIsNotFull(c: nat)
    ensures SetCompact(c).value < W - 1
  {
    var size, mantissa := c / EXPONENT, c % SIGN;
    if size <= 3 {
      ShrIsSmaller(mantissa, 3 - size);
    } else {
      ShlEndsInZero(mantissa, size - 3);
    }
  }

  lemma {:induction false} ShrIsSmaller(n: nat, k: nat)
    ensures Shr8(n, k) <= n
  {
    if k > 0 {
      ShrIsSmaller(n, k - 1);
    }
  }

  lemma {:induction false} ShlEndsInZero(n: nat, k: nat)
    requires k > 0
    ensures ShlWord(n, k) < W && ShlWord(n, k) % 256 == 0
  {
    MultipleModulo(ShlWord(n, k - 1));
  }

  lemma MultipleModulo(x: nat)
    ensures (256 * x) % W % 256 == 0
  {
    var q, r := 256 * x / W, (256 * x) % W;
    assert r == 256 * (x - W / 256 * q);
  }
}
