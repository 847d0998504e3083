/** Shared small definitions. */
module Common {

  datatype Option<+T> = None | Some(value: T)

  predicate Distinct<T(==)>(s: seq<T>) {
    forall i, j :: 0 <= i < j < |s| ==> s[i] != s[j]
  }

  /** No block: the null pointer. */
  const NONE := -1
}

module Powers {

  function Pow2(k: nat): (r: nat)
    ensures r >= 1
  {
    if k == 0 then 1 else 2 * Pow2(k - 1)
  }

  lemma {:induction false} Pow2Grows(i: nat, j: nat)
    requires i <= j
    ensures Pow2(i) <= Pow2(j)
    decreases j
  {
    if i < j {
      Pow2Grows(i, j - 1);
    }
  }

  /** n << k. */
  function Shl(n: nat, k: nat): (r: nat)
    ensures r >= n
    decreases k
  {
    if k == 0 then n else Shl(2 * n, k - 1)
  }

  lemma {:induction false} ShlAdd(a: nat, b: nat, k: nat)
    ensures Shl(a + b, k) == Shl(a, k) + Shl(b, k)
    decreases k
  {
    if k > 0 {
      ShlAdd(2 * a, 2 * b, k - 1);
    }
  }

  lemma ShlFirst(n: nat, k: nat)
    requires k > 0
    ensures Shl(n, k) == Shl(2 * n, k - 1)
  {
  }

  lemma ShlNone(n: nat)
    ensures Shl(n, 0) == n
  {
  }

  lemma {:induction false} ShlZero(k: nat)
    ensures Shl(0, k) == 0
  {
    if k > 0 {
      ShlZero(k - 1);
    }
  }

  lemma {:induction false} ShlStep(n: nat, k: nat)
    ensures Shl(n, k + 1) == 2 * Shl(n, k)
  {
    ShlAdd(n, n, k);
  }

  lemma Ordered(i: nat, a: int, b: int)
    requires a <= b
    ensures i * a <= i * b
  {
    assert i * (b - a) >= 0;
  }

  /** The quotient and the rest of k * d + r. */
  lemma QuotientOf(k: nat, d: nat, r: nat)
    requires r < d
    ensures (k * d + r) / d == k && (k * d + r) % d == r
  {
    var q := (k * d + r) / d;
    assert d * q <= d * k + r < d * (q + 1);
    if q < k {
      Ordered(d, q + 1, k);
    } else if q > k {
      Ordered(d, k + 1, q);
    }
  }
}
