/** 256-bit numbers (src/structs/uint256.cpp): size in bits, shifts, and long division. */
module Uint256 {
  import opened Common
  import opened Powers

  /** 2 to the 256: arithmetic is modulo this. */
  const W: nat := 0x1_0000000000000000_0000000000000000_0000000000000000_0000000000000000

  function Bits(n: nat): nat {
    if n == 0 then 0 else 1 + Bits(n / 2)
  }

  lemma {:induction false} BitsBound(n: nat)
    ensures n < Pow2(Bits(n))
    ensures n > 0 ==> Bits(n) > 0 && Pow2(Bits(n) - 1) <= n
  {
    if n > 0 {
      BitsBound(n / 2);
    }
  }

  lemma {:induction false} ShlIsTimes(n: nat, k: nat)
    ensures Shl(n, k) == Pow2(k) * n
  {
    if k > 0 {
      ShlStep(n, k - 1);
      ShlIsTimes(n, k - 1);
    }
  }

  lemma {:induction false} ShlOfPow2(n: nat, i: nat, k: nat)
    requires n >= Pow2(i)
    ensures Shl(n, k) >= Pow2(i + k)
  {
    if k > 0 {
      ShlStep(n, k - 1);
      ShlOfPow2(n, i, k - 1);
    }
  }

  lemma {:induction false} ShlBelowPow2(n: nat, i: nat, k: nat)
    requires n < Pow2(i)
    ensures Shl(n, k) < Pow2(i + k)
  {
    if k > 0 {
      ShlStep(n, k - 1);
      ShlBelowPow2(n, i, k - 1);
    }
  }

  /** `q` is the integer part of n / b. */
  ghost predicate IsQuotient(n: nat, b: nat, q: nat) {
    q * b <= n < q * b + b
  }

  lemma QuotientBySize(n: nat, b: nat)
    requires Bits(b) > Bits(n)
    ensures n < b
  {
    BitsBound(n);
    BitsBound(b);
    Pow2Grows(Bits(n), Bits(b) - 1);
  }

  /** The divisor aligned with the number: it is no longer than the number, so that no bit is
      shifted out, and its double is greater. */
  lemma Aligned(n: nat, b: nat)
    requires b > 0 && Bits(b) <= Bits(n)
    ensures n < 2 * Shl(b, Bits(n) - Bits(b))
    ensures Shl(b, Bits(n) - Bits(b)) < Pow2(Bits(n))
  {
    hide Shl, Pow2, Bits;
    var shift := Bits(n) - Bits(b);
    ShlStep(b, shift);
    BitsBound(n);
    BitsBound(b);
    ShlOfPow2(b, Bits(b) - 1, shift + 1);
    ShlBelowPow2(b, Bits(b), shift);
  }

  /** `num` is what is left of `n` after taking out `q` times `b`. */
  ghost predicate LeavesOver(n: nat, b: nat, q: nat, num: nat) {
    q * b + num == n
  }

  lemma NothingTakenOut(n: nat, b: nat)
    ensures LeavesOver(n, b, 0, n)
  {
  }

  /** One more bit of the quotient. */
  lemma TakeOut(n: nat, b: nat, q: nat, num: nat, shift: nat)
    requires LeavesOver(n, b, q, num) && num >= Shl(b, shift)
    ensures LeavesOver(n, b, q + Pow2(shift), num - Shl(b, shift))
  {
    ShlIsTimes(b, shift);
  }

  lemma RestIsSmall(n: nat, b: nat, q: nat, num: nat)
    requires LeavesOver(n, b, q, num) && num < b
    ensures IsQuotient(n, b, q)
  {
  }

  /** base_uint::operator/=. None is the exception for a division by zero. Adding a bit to the
      quotient sets it, since that bit and all below it are still clear. */
  method Divide(n: nat, b: nat) returns (r: Option<nat>)
    ensures r == None <==> b == 0
    ensures r.Some? ==> IsQuotient(n, b, r.value)
  {
    hide LeavesOver, IsQuotient, Shl, Pow2, Bits;
    if b == 0 {
      return None;
    }
    var q: nat, num: nat := 0, n;
    NothingTakenOut(n, b);
    if Bits(b) > Bits(n) {
      QuotientBySize(n, b);
      RestIsSmall(n, b, 0, n);
      return Some(0);
    }
    var shift: int := Bits(n) - Bits(b);
    var div := Shl(b, shift);
    Aligned(n, b);
    ghost var high: nat := 0;
    ShlZero(shift + 1);
    ShlStep(b, shift);
    while shift >= 0
      invariant shift >= -1
      invariant shift >= 0 ==> div == Shl(b, shift)
      invariant num < Shl(b, shift + 1)
      invariant LeavesOver(n, b, q, num)
      invariant q == Shl(high, shift + 1)
    {
      ShlStep(b, shift);
      if num >= div {
        TakeOut(n, b, q, num, shift);
        num := num - div;
        ShlPlusBit(high, shift);
        q := q + Pow2(shift);
        high := 2 * high + 1;
      } else {
        ShlOfDouble(high, shift);
        high := 2 * high;
      }
      if shift > 0 {
        ShlStep(b, shift - 1);
      }
      div := div / 2;
      shift := shift - 1;
    }
    ShlNone(b);
    RestIsSmall(n, b, q, num);
    return Some(q);
  }

  lemma ShlOfDouble(n: nat, k: nat)
    ensures Shl(2 * n, k) == Shl(n, k + 1)
  {
  }

  lemma {:induction false} ShlOfOne(k: nat)
    ensures Shl(1, k) == Pow2(k)
  {
    ShlIsTimes(1, k);
  }

  lemma ShlPlusBit(n: nat, k: nat)
    ensures Shl(2 * n + 1, k) == Shl(n, k + 1) + Pow2(k)
  {
    ShlAdd(2 * n, 1, k);
    ShlOfOne(k);
  }

  /** A quotient is determined by its numbers. */
  lemma QuotientIsUnique(n: nat, b: nat, q: nat, r: nat)
    requires IsQuotient(n, b, q) && IsQuotient(n, b, r)
    ensures q == r
  {
    if q < r {
      TimesGrows(q + 1, r, b);
    } else if r < q {
      TimesGrows(r + 1, q, b);
    }
  }

  lemma TimesGrows(x: nat, y: nat, b: nat)
    requires x <= y
    ensures x * b <= y * b
  {
    assert (y - x) * b >= 0;
  }
}
