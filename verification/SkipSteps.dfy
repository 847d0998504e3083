/** How many steps it takes to walk back to a height with skip pointers (src/core/main.cpp,
    GetSkipHeight and GetAncestor): about a quarter of the square of the number of bits, exactly
    for the longest walk, so 110 up to a height of 2^18. */
module SkipSteps {
  import opened Powers
  import opened SkipHeight

  // ----- lowest bits

  /** The lowest bit of `n` that is set is bit `k`. */
  predicate LowestBit(n: nat, k: nat) {
    if k == 0 then n % 2 == 1 else n % 2 == 0 && LowestBit(n / 2, k - 1)
  }

  /** The bits of `n` below bit `k` are clear. */
  predicate IsMultiple(n: nat, k: nat) {
    k == 0 || (n % 2 == 0 && IsMultiple(n / 2, k - 1))
  }

  function OddTimes(m: nat, k: nat): nat { (2 * m + 1) * Pow2(k) }

  /** It is an odd multiple of 2^k. */
  lemma {:induction false} LowestBitIff(n: nat, k: nat)
    ensures LowestBit(n, k) <==> exists m: nat :: n == OddTimes(m, k)
  {
    if k == 0 {
      assert n % 2 == 1 ==> n == OddTimes(n / 2, 0);
    } else {
      LowestBitIff(n / 2, k - 1);
      if LowestBit(n, k) {
        var m: nat :| n / 2 == OddTimes(m, k - 1);
        Double(2 * m + 1, Pow2(k - 1));
        assert n == OddTimes(m, k);
      }
      if m: nat :| n == OddTimes(m, k) {
        Double(2 * m + 1, Pow2(k - 1));
        assert n / 2 == OddTimes(m, k - 1);
      }
    }
  }

  lemma Double(a: nat, b: nat)
    ensures a * (2 * b) == 2 * (a * b)
  {
  }

  /** Taking it out leaves the bits above. */
  lemma {:induction false} WithoutLowest(n: nat, k: nat)
    requires LowestBit(n, k)
    ensures n >= Pow2(k) && InvertLowestOne(n) == n - Pow2(k) && IsMultiple(n - Pow2(k), k + 1)
  {
    hide InvertLowestOne;
    LowestOneIsTakenOut(n / 2);
    if k == 0 {
      assert n == 2 * (n / 2) + 1 && Pow2(0) == 1;
      assert IsMultiple((n - 1) / 2, 0);
    } else {
      WithoutLowest(n / 2, k - 1);
      assert n == 2 * (n / 2) && (n - Pow2(k)) / 2 == n / 2 - Pow2(k - 1);
    }
  }

  /** The number just below a multiple of 2^k, 2^j below it, has bit j as its lowest. */
  lemma {:induction false} LowestOfDifference(n: nat, k: nat, j: nat)
    requires IsMultiple(n, k) && j < k && n > 0
    ensures n >= Pow2(j) && LowestBit(n - Pow2(j), j)
  {
    assert n == 2 * (n / 2);
    if j > 0 {
      LowestOfDifference(n / 2, k - 1, j - 1);
      assert (n - Pow2(j)) / 2 == n / 2 - Pow2(j - 1);
    }
  }

  lemma {:induction false} LowestIsMultiple(n: nat, k: nat)
    requires LowestBit(n, k)
    ensures IsMultiple(n, k) && n > 0
  {
    if k > 0 {
      LowestIsMultiple(n / 2, k - 1);
    }
  }

  function LowestOf(n: nat): (k: nat)
    requires n > 0
    ensures LowestBit(n, k)
  {
    if n % 2 == 1 then 0 else 1 + LowestOf(n / 2)
  }

  lemma {:induction false} LowestIsAbove(n: nat, k: nat, c: nat)
    requires IsMultiple(n, k) && LowestBit(n, c)
    ensures c >= k
  {
    if k > 0 && c > 0 {
      LowestIsAbove(n / 2, k - 1, c - 1);
    }
  }

  lemma LowestIsBelow(n: nat, k: nat, top: nat)
    requires LowestBit(n, k) && n < Pow2(top)
    ensures k < top
  {
    WithoutLowest(n, k);
    if k >= top {
      Pow2Grows(top, k);
    }
  }

  lemma {:induction false} Pow2IsLowest(k: nat)
    ensures LowestBit(Pow2(k), k)
  {
    if k > 0 {
      Pow2IsLowest(k - 1);
    }
  }

  lemma InvertIsNotAbove(n: nat)
    ensures InvertLowestOne(n) <= n
  {
    if n > 0 {
      InvertIsBelow(n);
    }
  }

  // ----- skip heights

  /** An even height skips to what is left without its lowest bit. */
  lemma SkipOfEven(n: nat, k: nat)
    requires LowestBit(n, k) && k >= 1
    ensures GetSkipHeight(n) == n - Pow2(k)
  {
    hide InvertLowestOne, IsMultiple;
    WithoutLowest(n, k);
    Pow2Grows(1, k);
  }

  lemma SkipUnfolds(n: nat)
    requires n % 2 == 0 && n > 0
    ensures GetSkipHeight(n + 1) == InvertLowestOne(InvertLowestOne(n)) + 1
  {
  }

  lemma EvenBelow(n: nat, k: nat)
    requires LowestBit(n, k) && k >= 1
    ensures n % 2 == 0
  {
  }

  /** An odd height above 1 skips to one more than what is left of the height below without its
      two lowest bits. */
  lemma SkipOfOdd(n: nat, k: nat)
    requires LowestBit(n, k) && k >= 1
    ensures n == Pow2(k) ==> GetSkipHeight(n + 1) == 1
    ensures n > Pow2(k) ==> var c := LowestOf(n - Pow2(k));
                            c > k && n >= Pow2(k) + Pow2(c)
                            && GetSkipHeight(n + 1) == n - Pow2(k) - Pow2(c) + 1
                            && InvertLowestOne(n - Pow2(k)) == n - Pow2(k) - Pow2(c)
  {
    hide InvertLowestOne, IsMultiple, LowestBit, LowestOf, GetSkipHeight;
    WithoutLowest(n, k);
    EvenBelow(n, k);
    SkipUnfolds(n);
    var rest := n - Pow2(k);
    if rest > 0 {
      WithoutLowest(rest, LowestOf(rest));
      LowestIsAbove(rest, k + 1, LowestOf(rest));
    } else {
      InvertIsNotAbove(0);
    }
  }

  // ----- single steps

  /** From an odd height the walk skips whenever that does not lead too far. */
  lemma NextOfOdd(n: nat, height: nat)
    requires n % 2 == 0 && height <= n
    ensures NextHeight(n + 1, height) ==
            if GetSkipHeight(n + 1) >= height then GetSkipHeight(n + 1) else n
  {
    hide InvertLowestOne;
    if n >= 2 {
      InvertIsNotAbove(InvertLowestOne(n));
    }
  }

  /** So it does from an even height, except close to the lowest bits. */
  lemma NextOfEven(n: nat, k: nat, height: nat)
    requires LowestBit(n, k) && k >= 1 && height < n
    ensures n >= Pow2(k)
    ensures var skip: nat := n - Pow2(k);
            && (skip < height ==> NextHeight(n, height) == n - 1)
            && (skip == height ==> NextHeight(n, height) == skip)
            && (skip > height && (k >= 3 || InvertLowestOne(skip) + 1 < height) ==>
                  NextHeight(n, height) == skip)
  {
    hide InvertLowestOne, LowestBit, IsMultiple;
    WithoutLowest(n, k);
    SkipOfEven(n, k);
    var skip: nat := n - Pow2(k);
    if skip > height {
      if k >= 3 {
        SkipBeforeHigh(n, k);
      } else {
        SkipBeforeLow(n, k);
        InvertIsNotAbove(InvertLowestOne(skip));
      }
    }
  }

  lemma SkipBeforeHigh(n: nat, k: nat)
    requires LowestBit(n, k) && k >= 3
    ensures n >= Pow2(k) >= 8 && GetSkipHeight(n - 1) == n - 7
  {
    hide InvertLowestOne, LowestBit, IsMultiple;
    WithoutLowest(n, k);
    Pow2Grows(3, k);
    assert Pow2(1) == 2 && Pow2(2) == 4 && Pow2(3) == 8;
    LowestIsMultiple(n, k);
    LowestOfDifference(n, k, 1);
    LowestOfDifference(n, k, 2);
    WithoutLowest(n - 2, 1);
    WithoutLowest(n - 4, 2);
    EvenBelow(n, k);
  }

  lemma SmallPowers()
    ensures Pow2(1) == 2 && Pow2(2) == 4 && Pow2(3) == 8
  {
  }

  lemma SkipBeforeLow(n: nat, k: nat)
    requires LowestBit(n, k) && 1 <= k <= 2 && n > Pow2(k)
    ensures var rest: nat := n - Pow2(k);
            GetSkipHeight(n - 1) ==
            (if k == 1 then InvertLowestOne(InvertLowestOne(rest)) else InvertLowestOne(rest)) + 1
    ensures n >= Pow2(k) + Pow2(k + 1) && InvertLowestOne(n - Pow2(k)) + Pow2(k + 1) <= n - Pow2(k)
  {
    hide InvertLowestOne, LowestBit, IsMultiple, LowestOf, GetSkipHeight, Pow2;
    SmallPowers();
    var rest: nat := n - Pow2(k);
    WithoutLowest(n, k);
    WithoutLowest(rest, LowestOf(rest));
    LowestIsAbove(rest, k + 1, LowestOf(rest));
    Pow2Grows(k + 1, LowestOf(rest));
    EvenBelow(n, k);
    SkipUnfolds(n - 2);
    if k == 2 {
      LowestIsMultiple(n, k);
      LowestOfDifference(n, k, 1);
      WithoutLowest(n - 2, 1);
    }
  }

  /** Close to the lowest bits it takes one step back if the skip from there is not too far. */
  lemma NextIsOneBack(n: nat, k: nat, height: nat)
    requires LowestBit(n, k) && 1 <= k <= 2 && n > Pow2(k) && height < n - Pow2(k)
    requires InvertLowestOne(InvertLowestOne(n - Pow2(k))) + 1 >= height
    ensures NextHeight(n, height) == n - 1
  {
    hide InvertLowestOne, LowestBit, IsMultiple;
    assert Pow2(2) == 4 && Pow2(3) == 8;
    SkipOfEven(n, k);
    SkipBeforeLow(n, k);
    InvertIsNotAbove(InvertLowestOne(n - Pow2(k)));
  }

  // ----- the longest walks

  /** The longest walk from a height with lowest bit `k` to less than 2^k below, but not to the
      first height above that. */
  function Longest(k: nat): nat {
    if k <= 1 then 0 else Longest(k - 1) + 1 + (k + 1) / 2
  }

  /** The walk to that one. */
  function ToFirst(k: nat): nat {
    if k % 2 == 1 then (k + 1) / 2 else k + 1
  }

  lemma {:induction false} LongestGrows(i: nat, j: nat)
    requires i <= j
    ensures Longest(i) <= Longest(j)
    decreases j
  {
    if i < j {
      LongestGrows(i, j - 1);
    }
  }

  lemma {:induction false} LongestIsLong(k: nat)
    requires k >= 2
    ensures Longest(k) >= k && (k >= 3 ==> Longest(k) > k)
  {
    if k > 2 {
      LongestIsLong(k - 1);
    }
  }

  /** In closed form. */
  lemma {:induction false} LongestIs(k: nat)
    ensures Longest(2 * k + 1) == k * k + 4 * k
    ensures Longest(2 * k + 2) == k * k + 5 * k + 2
  {
    if k > 0 {
      LongestIs(k - 1);
      assert (k - 1) * (k - 1) == k * k - 2 * k + 1;
    }
  }

  lemma Gaps(k: nat, j: nat)
    requires j % 2 == 1 && j < k
    ensures Longest(j) + 2 + (j - 1) / 2 <= Longest(k)
    ensures j + 1 < k ==> Longest(j + 1) + 3 + (j - 1) / 2 <= Longest(k)
    ensures j + 1 < k ==> ToFirst(j) + 2 + (j - 1) / 2 <= Longest(k)
  {
    LongestGrows(j + 1, k);
    if j + 1 < k {
      LongestGrows(j + 2, k);
      LongestIsLong(j + 2);
    }
  }

  lemma StepOnce(walk: nat, next: nat, height: nat)
    requires height < walk && NextHeight(walk, height) == next
    ensures height <= next < walk && Steps(walk, height) == 1 + Steps(next, height)
  {
  }

  lemma NoStep(height: nat)
    ensures Steps(height, height) == 0
  {
  }

  /** What an odd height on the way down from `n` is, and what it skips to. */
  lemma OnTheWay(n: nat, k: nat, j: nat)
    requires LowestBit(n, k) && j % 2 == 1 && j < k
    ensures n >= Pow2(k) && Pow2(j + 1) == 2 * Pow2(j) && Pow2(j) >= 2 && Pow2(k) >= Pow2(j + 1)
    ensures LowestBit(n - Pow2(j), j) && (n - Pow2(j)) % 2 == 0
    ensures j + 1 < k ==>
              && Pow2(j + 2) == 4 * Pow2(j) && Pow2(k) >= Pow2(j + 2)
              && (j + 2 < k ==> Pow2(k) >= 2 * Pow2(j + 2))
              && LowestBit(n - Pow2(j + 1), j + 1)
              && InvertLowestOne(n - Pow2(j + 1)) == n - Pow2(j + 2)
              && GetSkipHeight(n - Pow2(j) + 1) == n - Pow2(j + 2) + 1
    ensures j + 1 == k ==> GetSkipHeight(n - Pow2(j) + 1) <= n - Pow2(k) + 1
  {
    hide InvertLowestOne, LowestBit, IsMultiple, GetSkipHeight, LowestOf, Pow2;
    WithoutLowest(n, k);
    LowestIsMultiple(n, k);
    PowersBetween(j, k);
    LowestOfDifference(n, k, j);
    EvenBelow(n - Pow2(j), j);
    SkipOfOdd(n - Pow2(j), j);
    if j + 1 < k {
      LowestOfDifference(n, k, j + 1);
      WithoutLowest(n - Pow2(j + 1), j + 1);
      LowestIsUnique(n - Pow2(j + 1), j + 1, LowestOf(n - Pow2(j + 1)));
    }
  }

  lemma PowersBetween(j: nat, k: nat)
    requires 1 <= j < k
    ensures Pow2(j) >= 2 && Pow2(j + 1) == 2 * Pow2(j) && Pow2(j + 2) == 4 * Pow2(j)
    ensures Pow2(k) >= Pow2(j + 1)
    ensures j + 1 < k ==> Pow2(k) >= Pow2(j + 2)
    ensures j + 2 < k ==> Pow2(k) >= 2 * Pow2(j + 2)
  {
    Pow2Grows(1, j);
    Pow2Grows(j + 1, k);
    if j + 1 < k {
      Pow2Grows(j + 2, k);
    }
    if j + 2 < k {
      Pow2Grows(j + 3, k);
    }
  }

  lemma {:induction false} LowestIsUnique(n: nat, k: nat, c: nat)
    requires LowestBit(n, k) && LowestBit(n, c)
    ensures k == c
  {
    if k > 0 && c > 0 {
      LowestIsUnique(n / 2, k - 1, c - 1);
    }
  }

  /** To the first height above what is left without the lowest bit. */
  lemma {:induction false} EvenToFirst(n: nat, k: nat)
    requires LowestBit(n, k) && k >= 1
    ensures n >= Pow2(k) >= 2 && Steps(n, n - Pow2(k) + 1) <= ToFirst(k)
    decreases k, k, 1
  {
    hide InvertLowestOne, LowestBit, NextHeight, Steps;
    WithoutLowest(n, k);
    Pow2Grows(1, k);
    assert Pow2(1) == 2;
    var height := n - Pow2(k) + 1;
    NextOfEven(n, k, height);
    StepOnce(n, n - 1, height);
    if k == 1 {
      NoStep(height);
    } else {
      OddToFirst(n, k, 1);
    }
  }

  lemma {:induction false} OddToFirst(n: nat, k: nat, j: nat)
    requires LowestBit(n, k) && j % 2 == 1 && j < k
    ensures n >= Pow2(k) >= Pow2(j)
    ensures Steps(n - Pow2(j) + 1, n - Pow2(k) + 1) <= ToFirst(k) - 1 - (j - 1) / 2
    decreases k, k - j, 1
  {
    hide InvertLowestOne, LowestBit, NextHeight, GetSkipHeight, Steps;
    OnTheWay(n, k, j);
    var walk, height := n - Pow2(j), n - Pow2(k) + 1;
    NextOfOdd(walk, height);
    StepOnce(walk + 1, NextHeight(walk + 1, height), height);
    NoStep(height);
    if j + 2 < k {
      OddToFirst(n, k, j + 2);
    } else if j + 1 == k && NextHeight(walk + 1, height) == walk {
      EvenToFirst(walk, j);
    }
  }

  /** Down from an even height to above what is left without its lowest bit. */
  lemma {:induction false} EvenFall(n: nat, k: nat, height: nat)
    requires LowestBit(n, k) && k >= 1 && n - Pow2(k) + 2 <= height < n
    ensures Steps(n, height) <= Longest(k)
    decreases k, k, 1
  {
    hide InvertLowestOne, LowestBit, NextHeight, Steps;
    WithoutLowest(n, k);
    assert Pow2(1) == 2;
    NextOfEven(n, k, height);
    StepOnce(n, n - 1, height);
    LongestIsLong(k);
    if height == n - 1 {
      NoStep(height);
    } else {
      OddFall(n, k, 1, height);
    }
  }

  lemma {:induction false} OddFall(n: nat, k: nat, j: nat, height: nat)
    requires LowestBit(n, k) && j % 2 == 1 && j < k
    requires n - Pow2(k) + 2 <= height <= n - Pow2(j)
    ensures Steps(n - Pow2(j) + 1, height) <= Longest(k) - 1 - (j - 1) / 2
    decreases k, k - j, 1
  {
    hide InvertLowestOne, LowestBit, NextHeight, GetSkipHeight, Steps, Longest, ToFirst;
    OnTheWay(n, k, j);
    Gaps(k, j);
    var walk := n - Pow2(j);
    NextOfOdd(walk, height);
    StepOnce(walk + 1, NextHeight(walk + 1, height), height);
    NoStep(height);
    if j + 1 < k && n - Pow2(j + 2) + 1 > height {
      OddFall(n, k, j + 2, height);
    } else if walk > height && NextHeight(walk + 1, height) == walk {
      FallFurther(n, k, j, height);
    }
  }

  /** From there, when the next skip would lead too far. */
  lemma {:induction false} FallFurther(n: nat, k: nat, j: nat, height: nat)
    requires LowestBit(n, k) && j % 2 == 1 && j < k && n >= Pow2(j)
    requires n - Pow2(k) + 2 <= height < n - Pow2(j)
    requires j + 1 < k ==> n - Pow2(j + 2) + 1 < height
    ensures Steps(n - Pow2(j), height) <= Longest(k) - 2 - (j - 1) / 2
    decreases k, k - j, 0
  {
    hide InvertLowestOne, LowestBit, NextHeight, GetSkipHeight, Steps, Longest, ToFirst;
    OnTheWay(n, k, j);
    Gaps(k, j);
    var walk, skip := n - Pow2(j), n - Pow2(j + 1);
    NoStep(height);
    if skip >= height {
      NextOfEven(walk, j, height);
      StepOnce(walk, skip, height);
      if skip > height {
        EvenFall(skip, j + 1, height);
      }
    } else if height == skip + 1 {
      EvenToFirst(walk, j);
      IsToFirst(j);
    } else {
      EvenFall(walk, j, height);
    }
  }

  lemma IsToFirst(j: nat)
    requires j % 2 == 1
    ensures ToFirst(j) == (j + 1) / 2
  {
  }

  // ----- all walks

  lemma ShortFall(k: nat, top: nat)
    requires 1 <= k < top && top >= 4
    ensures Longest(k) <= Longest(top - 1) && ToFirst(k) <= Longest(top - 1) && Longest(top - 1) >= 5
  {
    LongestGrows(k, top - 1);
    LongestGrows(3, top - 1);
    assert Longest(3) == 5;
    if k >= 4 {
      LongestIsLong(k);
    }
  }

  /** The walk goes no further than the next skip. */
  lemma LastFall(n: nat, k: nat, top: nat, height: nat)
    requires LowestBit(n, k) && k >= 1 && n < Pow2(top) && top >= 4
    requires n - Pow2(k) < height < n
    ensures Steps(n, height) <= Longest(top - 1)
  {
    hide *;
    LowestIsBelow(n, k, top);
    ShortFall(k, top);
    if height == n - Pow2(k) + 1 {
      EvenToFirst(n, k);
    } else {
      EvenFall(n, k, height);
    }
  }

  /** From an even height with its three lowest bits clear: a skip for each bit. */
  lemma {:induction false} EvenSlide(n: nat, k: nat, top: nat, height: nat)
    requires LowestBit(n, k) && k >= 3 && n < Pow2(top) && top >= 4 && height < n
    ensures k < top && Steps(n, height) <= top - 1 - k + Longest(top - 1)
    decreases n
  {
    hide InvertLowestOne, LowestBit, IsMultiple, NextHeight, Steps, Longest, ToFirst;
    LowestIsBelow(n, k, top);
    ShortFall(k, top);
    WithoutLowest(n, k);
    NextOfEven(n, k, height);
    var skip: nat := n - Pow2(k);
    if skip < height {
      LastFall(n, k, top, height);
    } else {
      StepOnce(n, skip, height);
      NoStep(height);
      if skip > height {
        LowestIsAbove(skip, k + 1, LowestOf(skip));
        EvenSlide(skip, LowestOf(skip), top, height);
      }
    }
  }

  /** One skip, at most, before the last fall. */
  lemma SlideOnce(n: nat, k: nat, top: nat, height: nat)
    requires LowestBit(n, k) && k >= 1 && n < Pow2(top) && top >= 4
    requires InvertLowestOne(InvertLowestOne(n)) + 1 < height < n
    ensures Steps(n, height) <= 1 + Longest(top - 1)
  {
    hide InvertLowestOne, LowestBit, IsMultiple, NextHeight, Steps, Longest, ToFirst;
    WithoutLowest(n, k);
    NextOfEven(n, k, height);
    LowestIsBelow(n, k, top);
    ShortFall(k, top);
    var skip: nat := n - Pow2(k);
    if skip < height {
      LastFall(n, k, top, height);
    } else {
      StepOnce(n, skip, height);
      NoStep(height);
      if skip > height {
        WithoutLowest(skip, LowestOf(skip));
        LowestIsAbove(skip, k + 1, LowestOf(skip));
        LastFall(skip, LowestOf(skip), top, height);
      }
    }
  }

  /** From an odd height: a skip for every two bits. */
  lemma {:induction false} OddSlide(n: nat, k: nat, top: nat, height: nat)
    requires LowestBit(n, k) && k >= 1 && n < Pow2(top) && top >= 4 && height <= n
    ensures k < top && Steps(n + 1, height) <= (top - k) / 2 + 2 + Longest(top - 1)
    decreases n
  {
    hide InvertLowestOne, LowestBit, IsMultiple, NextHeight, GetSkipHeight, Steps, Longest, ToFirst;
    LowestIsBelow(n, k, top);
    WithoutLowest(n, k);
    ShortFall(k, top);
    EvenBelow(n, k);
    NextOfOdd(n, height);
    SkipOfOdd(n, k);
    var next := NextHeight(n + 1, height);
    StepOnce(n + 1, next, height);
    NoStep(height);
    if next <= 1 {
      FewSteps(next, height);
    } else if next == n {
      if n > height {
        SlideOnceFrom(n, k, top, height);
      }
    } else if next > height {
      var c := LowestOf(n - Pow2(k));
      var rest := n - Pow2(k) - Pow2(c);
      WithoutLowest(n - Pow2(k), c);
      LowestIsAbove(rest, c + 1, LowestOf(rest));
      OddSlide(rest, LowestOf(rest), top, height);
    }
  }

  lemma SlideOnceFrom(n: nat, k: nat, top: nat, height: nat)
    requires LowestBit(n, k) && k >= 1 && n < Pow2(top) && top >= 4
    requires GetSkipHeight(n + 1) < height < n
    ensures Steps(n, height) <= 1 + Longest(top - 1)
  {
    hide LowestBit, IsMultiple, Steps, Longest, InvertLowestOne;
    WithoutLowest(n, k);
    EvenBelow(n, k);
    Pow2Grows(1, k);
    assert Pow2(1) == 2;
    SlideOnce(n, k, top, height);
  }

  lemma FewSteps(walk: nat, height: nat)
    requires height <= walk <= 1
    ensures Steps(walk, height) <= 1
  {
    if height < walk {
      NoStep(0);
      StepOnce(1, NextHeight(1, 0), 0);
    }
  }

  /** From the other even heights. */
  lemma EvenStart(n: nat, k: nat, top: nat, height: nat)
    requires LowestBit(n, k) && 1 <= k <= 2 && n < Pow2(top) && top >= 4 && height < n
    ensures Steps(n, height) <= (top - 1) / 2 + 3 + Longest(top - 1)
  {
    hide InvertLowestOne, LowestBit, IsMultiple, NextHeight, Steps, Longest, ToFirst;
    WithoutLowest(n, k);
    NextOfEven(n, k, height);
    LowestIsBelow(n, k, top);
    ShortFall(k, top);
    NoStep(height);
    var skip: nat := n - Pow2(k);
    var next := NextHeight(n, height);
    StepOnce(n, next, height);
    if skip > height && InvertLowestOne(InvertLowestOne(skip)) + 1 >= height {
      NextIsOneBack(n, k, height);
    }
    if skip > height && next == skip {
      LowestIsAbove(skip, k + 1, LowestOf(skip));
      SlideOnce(skip, LowestOf(skip), top, height);
    } else if next > height {
      NextIsEither(n, k, height);
      EvenBelow(n, k);
      LowestOfEven(n - 2);
      OddSlide(n - 2, LowestOf(n - 2), top, height);
    }
  }

  lemma NextIsEither(n: nat, k: nat, height: nat)
    requires LowestBit(n, k) && k >= 1 && height < n
    ensures n >= Pow2(k) && NextHeight(n, height) in {n - 1, n - Pow2(k)}
  {
    WithoutLowest(n, k);
    SkipOfEven(n, k);
  }

  lemma LowestOfEven(n: nat)
    requires n % 2 == 0 && n > 0
    ensures LowestOf(n) >= 1
  {
  }

  /** From a height of `top` bits no walk takes more than `top` - 4 steps and the longest fall. */
  lemma StepsAreFew(walk: nat, height: nat, top: nat)
    requires top >= 12 && height <= walk < Pow2(top)
    ensures Steps(walk, height) <= top - 4 + Longest(top - 1)
  {
    hide InvertLowestOne, LowestBit, IsMultiple, NextHeight, GetSkipHeight, Steps, Longest, ToFirst, LowestOf;
    NoStep(height);
    if walk > height {
      ShortFall(3, top);
      if walk == 1 {
        FewSteps(walk, height);
      } else if walk % 2 == 1 {
        LowestOfEven(walk - 1);
        OddSlide(walk - 1, LowestOf(walk - 1), top, height);
      } else {
        LowestOfEven(walk);
        if LowestOf(walk) >= 3 {
          EvenSlide(walk, LowestOf(walk), top, height);
        } else {
          EvenStart(walk, LowestOf(walk), top, height);
        }
      }
    }
  }

  /** So 110 steps are enough from any height up to 2^18. */
  lemma AtMost110(walk: nat, height: nat)
    requires height <= walk <= 0x4_0000
    ensures Steps(walk, height) <= 110
  {
    hide LowestBit, Steps, Longest;
    assert Pow2(9) == 0x200 && Pow2(18) == 0x4_0000 && Pow2(19) == 0x8_0000;
    LongestIs(8);
    NoStep(height);
    if walk < 0x4_0000 {
      StepsAreFew(walk, height, 18);
    } else if walk > height {
      Pow2IsLowest(18);
      EvenSlide(walk, 18, 19, height);
    }
  }

  // ----- a longest walk

  lemma {:induction false} EvenFallsLong(n: nat, k: nat)
    requires LowestBit(n, k) && k >= 1
    ensures n >= Pow2(k) >= 2 && Steps(n, n - Pow2(k) + 2) == Longest(k)
    decreases k, k
  {
    hide InvertLowestOne, LowestBit, NextHeight, Steps;
    WithoutLowest(n, k);
    Pow2Grows(1, k);
    assert Pow2(1) == 2;
    var height := n - Pow2(k) + 2;
    NoStep(height);
    if k > 1 {
      Pow2Grows(2, k);
      assert Pow2(2) == 4;
      NextOfEven(n, k, height);
      StepOnce(n, n - 1, height);
      OddFallsLong(n, k, 1);
    }
  }

  lemma LongestSteps(k: nat)
    ensures k >= 2 ==> Longest(k) == Longest(k - 1) + 1 + (k + 1) / 2
  {
  }

  lemma {:induction false} OddFallsLong(n: nat, k: nat, j: nat)
    requires LowestBit(n, k) && j % 2 == 1 && j < k
    ensures n >= Pow2(k) >= Pow2(j) + 1
    ensures Steps(n - Pow2(j) + 1, n - Pow2(k) + 2) == Longest(k) - 1 - (j - 1) / 2
    decreases k, k - j
  {
    hide InvertLowestOne, LowestBit, NextHeight, GetSkipHeight, Steps, Longest;
    LongestSteps(k);
    OnTheWay(n, k, j);
    var walk, height := n - Pow2(j), n - Pow2(k) + 2;
    NextOfOdd(walk, height);
    StepOnce(walk + 1, NextHeight(walk + 1, height), height);
    if j + 2 < k {
      OddFallsLong(n, k, j + 2);
    } else if j + 2 == k {
      NextOfEven(walk, j, height);
      StepOnce(walk, n - Pow2(j + 1), height);
      EvenFallsLong(n - Pow2(j + 1), j + 1);
    } else {
      EvenFallsLong(walk, j);
    }
  }

  /** No bound is smaller: from 2^top - 8 to 2 it takes that many steps. */
  lemma {:induction false} SlidesLong(top: nat, k: nat)
    requires 3 <= k < top
    ensures Pow2(top) - Pow2(k) >= 8 && Steps(Pow2(top) - Pow2(k), 2) == top - 1 - k + Longest(top - 1)
    decreases top - k
  {
    hide InvertLowestOne, LowestBit, NextHeight, Steps, Longest;
    Pow2Grows(3, k);
    Pow2Grows(k + 1, top);
    assert Pow2(3) == 8 && Pow2(k + 1) == 2 * Pow2(k) && Pow2(top) == 2 * Pow2(top - 1);
    if k == top - 1 {
      Pow2IsLowest(k);
      EvenFallsLong(Pow2(k), k);
    } else {
      Pow2IsLowest(top);
      LowestIsMultiple(Pow2(top), top);
      LowestOfDifference(Pow2(top), top, k);
      Pow2Grows(k + 2, top);
      assert Pow2(k + 2) == 2 * Pow2(k + 1);
      NextOfEven(Pow2(top) - Pow2(k), k, 2);
      StepOnce(Pow2(top) - Pow2(k), Pow2(top) - Pow2(k + 1), 2);
      SlidesLong(top, k + 1);
    }
  }

  /** From 2^18 - 8 to 2 it takes 110. */
  lemma Takes110()
    ensures Steps(0x3_FFF8, 2) == 110
  {
    hide Steps, Longest;
    assert Pow2(3) == 8 && Pow2(9) == 0x200 && Pow2(18) == 0x4_0000;
    LongestIs(8);
    SlidesLong(18, 3);
  }
}
