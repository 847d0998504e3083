/** The whole supply: the subsidies of all blocks together stay below a bound that does not
    depend on the height (src/core/main.cpp, GetBlockValue). */
module Supply {
  import opened Common
  import opened Powers
  import opened Transactions
  import opened BlockUndo
  import opened Ledger
  import opened ChainRun
  import opened CoinSums

  /** What is known of the product with 0.2: it keeps order and makes nothing larger. */
  ghost predicate Shrinks(p: Params) {
    && (forall x: nat :: p.fifth(x) <= x)
    && forall x: nat, y: nat :: x <= y ==> p.fifth(x) <= p.fifth(y)
  }

  lemma {:induction false} ShiftStep(n: nat, k: nat)
    ensures Shift(n, k + 1) == Shift(n, k) / 2
  {
    if k > 0 {
      ShiftStep(n / 2, k - 1);
    }
  }

  lemma {:induction false} ShiftGrows(n: nat, m: nat, j: nat, k: nat)
    requires n <= m && j <= k
    ensures Shift(n, k) <= Shift(m, j)
    decreases k
  {
    if k > 0 {
      if j == k {
        ShiftGrows(n / 2, m / 2, j - 1, k - 1);
      } else {
        ShiftStep(n, k - 1);
        ShiftGrows(n, m, j, k - 1);
      }
    }
  }

  lemma QuotientGrows(a: nat, b: nat, d: nat)
    requires d > 0 && a <= b
    ensures a / d <= b / d
  {
    var x, y := a / d, b / d;
    assert d * x <= a && b < d * (y + 1);
    if x > y {
      Ordered(d, y + 1, x);
    }
  }

  // ----- what the subsidy is

  /** A right shift is the integer part of a division by a power of two. */
  lemma {:induction false} ShiftIsQuotient(n: nat, k: nat)
    ensures Pow2(k) * Shift(n, k) <= n < Pow2(k) * (Shift(n, k) + 1)
  {
    if k > 0 {
      ShiftIsQuotient(n / 2, k - 1);
      Doubled(Pow2(k - 1), Shift(n, k));
    }
  }

  lemma Doubled(p: nat, s: nat)
    ensures 2 * p * s == 2 * (p * s) && 2 * p * (s + 1) == 2 * (p * (s + 1))
  {
  }

  /** In the first halving interval: the first reward up to height 16800 if there is one, else the
      initial reward, halved from the first adjustment on and cut to a fifth from the second on. */
  lemma FirstSubsidies(p: Params, height: nat)
    requires height < p.halvingInterval
    ensures height < 16801 && p.firstReward > 0 ==> GetSubsidy(p, height) == p.firstReward / 16800
    ensures (height >= 16801 || p.firstReward == 0) && height < p.rewardAdjustment && height < p.rewardAdjustment2 ==>
              GetSubsidy(p, height) == p.initialReward
    ensures (height >= 16801 || p.firstReward == 0) && p.rewardAdjustment <= height < p.rewardAdjustment2 ==>
              GetSubsidy(p, height) == p.initialReward / 2
    ensures (height >= 16801 || p.firstReward == 0) && p.rewardAdjustment2 <= height < p.rewardAdjustment ==>
              GetSubsidy(p, height) == p.fifth(p.initialReward)
    ensures (height >= 16801 || p.firstReward == 0) && height >= p.rewardAdjustment && height >= p.rewardAdjustment2 ==>
              GetSubsidy(p, height) == p.fifth(p.initialReward / 2)
  {
    QuotientOf(0, p.halvingInterval, height);
  }

  /** The same reward rules hold at both heights. */
  predicate SameRules(p: Params, a: nat, b: nat) {
    && (a >= p.rewardAdjustment <==> b >= p.rewardAdjustment)
    && (a >= p.rewardAdjustment2 <==> b >= p.rewardAdjustment2)
    && (p.firstReward == 0 || (a < 16801 <==> b < 16801))
  }

  /** One interval later the subsidy is half, 63 times over. */
  lemma HalvingLaw(p: Params, height: nat)
    requires p.halvingInterval > 0 && SameRules(p, height, height + p.halvingInterval)
    requires height / p.halvingInterval + 1 < 64
    ensures GetSubsidy(p, height + p.halvingInterval) == GetSubsidy(p, height) / 2
  {
    hide Shift;
    var i, k := p.halvingInterval, height / p.halvingInterval;
    var r := height % i;
    assert height == k * i + r && (k + 1) * i + r == height + i;
    QuotientOf(k + 1, i, r);
    ShiftStep(SubsidyBase(p, height), k);
  }

  /** At every height it is the integer part of the base divided by two for each halving; so it
      is zero from 64 halvings on, and before that exactly when the base is less than that. */
  lemma SubsidyIsBaseHalved(p: Params, height: nat)
    requires p.halvingInterval > 0
    ensures var k, s := height / p.halvingInterval, GetSubsidy(p, height);
            && (k < 64 ==> Pow2(k) * s <= SubsidyBase(p, height) < Pow2(k) * (s + 1))
            && (s == 0 <==> k >= 64 || SubsidyBase(p, height) < Pow2(k))
  {
    hide Shift;
    var k: nat := height / p.halvingInterval;
    ShiftIsQuotient(SubsidyBase(p, height), k);
    if k < 64 && GetSubsidy(p, height) > 0 {
      Ordered(Pow2(k), 1, GetSubsidy(p, height));
    }
  }

  /** A block with a lone coinbase is valid if and only if that takes no more than the subsidy. */
  lemma LoneCoinbaseIsValidIff(p: Params, height: nat, amount: nat)
    requires p.halvingInterval > 0 && p.nativeCurrency && amount <= p.maxMoney
    ensures ValidBlock(p, map[], [Tx(1, 1, [NULL_OUTPOINT], [TxOut(amount, EMPTY_SCRIPT)])], height)
            <==> amount <= GetSubsidy(p, height)
  {
    hide GetSubsidy;
    var tx := Tx(1, 1, [NULL_OUTPOINT], [TxOut(amount, EMPTY_SCRIPT)]);
    var txs, empty := [tx], [];
    LoneCoinbasePasses(p, tx, height, amount);
    assert txs[..|txs| - 1] == empty && ConnectTxs(map[], empty, height) == Some((map[], []));
    assert AllPass(p, map[], empty, height) && AllPass(p, map[], txs, height);
    assert CoinbaseFirst(txs);
    assert tx.vout[..0] == [] && SumOuts(Amount, tx.vout) == amount;
    assert GetValueOut(p, txs[0]) == amount;
    assert Fees(p, map[], empty, height) == 0 && Fees(p, map[], txs, height) == 0;
  }

  /** From the end of the first period on, no block has a higher subsidy than one before it. */
  lemma SubsidyNeverRises(p: Params, a: nat, b: nat)
    requires p.halvingInterval > 0 && Shrinks(p) && a <= b && (a >= 16801 || p.firstReward == 0)
    ensures GetSubsidy(p, b) <= GetSubsidy(p, a)
  {
    hide Shift;
    QuotientGrows(a, b, p.halvingInterval);
    assert SubsidyBase(p, b) <= SubsidyBase(p, a);
    ShiftGrows(SubsidyBase(p, b), SubsidyBase(p, a), a / p.halvingInterval, b / p.halvingInterval);
  }

  /** The highest base. */
  function Highest(p: Params): nat {
    var first := p.firstReward / 16800;
    if first > p.initialReward then first else p.initialReward
  }

  lemma SubsidyAtMost(p: Params, k: nat, r: nat)
    requires r < p.halvingInterval && Shrinks(p)
    ensures GetSubsidy(p, k * p.halvingInterval + r) <= Shift(Highest(p), k)
  {
    hide Shift;
    var height := k * p.halvingInterval + r;
    QuotientOf(k, p.halvingInterval, r);
    assert SubsidyBase(p, height) <= Highest(p);
    ShiftGrows(SubsidyBase(p, height), Highest(p), k, k);
  }

  /** What can have been paid out after `r` blocks past halving `k`, as a bound. */
  function PaidOut(p: Params, k: nat, r: nat): int {
    p.halvingInterval * (2 * Highest(p) - 2 * Shift(Highest(p), k)) + (r + 1) * Shift(Highest(p), k)
  }

  lemma PaidOutInside(p: Params, k: nat, r: nat)
    requires r > 0
    ensures PaidOut(p, k, r) == PaidOut(p, k, r - 1) + Shift(Highest(p), k)
  {
    hide Highest, Shift;
  }

  lemma PaidOutAcross(p: Params, k: nat)
    requires k > 0 && p.halvingInterval > 0
    ensures PaidOut(p, k - 1, p.halvingInterval - 1) + Shift(Highest(p), k) <= PaidOut(p, k, 0)
  {
    hide Highest, Shift;
    var i, h := p.halvingInterval, Highest(p);
    var s: int, s': int := Shift(h, k), Shift(h, k - 1);
    ShiftStep(h, k - 1);
    Gathered(i, h, s');
    Ordered(i, 2 * h - s', 2 * h - 2 * s);
  }

  lemma Gathered(i: nat, h: int, s: int)
    ensures i * (2 * h - 2 * s) + i * s == i * (2 * h - s)
  {
  }

  lemma {:induction false} SupplyAt(p: Params, height: nat, k: nat, r: nat)
    requires r < p.halvingInterval && height == k * p.halvingInterval + r && Shrinks(p)
    ensures Subsidies(p, height) <= PaidOut(p, k, r)
    decreases height
  {
    hide GetSubsidy, PaidOut, Shift, Highest, Shrinks;
    SubsidyAtMost(p, k, r);
    if height == 0 {
      NothingPaidOut(p, k, r);
    } else if r > 0 {
      SupplyAt(p, height - 1, k, r - 1);
      PaidOutInside(p, k, r);
    } else {
      assert k > 0;
      assert (k - 1) * p.halvingInterval + (p.halvingInterval - 1) == height - 1;
      SupplyAt(p, height - 1, k - 1, p.halvingInterval - 1);
      PaidOutAcross(p, k);
    }
  }

  lemma NothingPaidOut(p: Params, k: nat, r: nat)
    requires r < p.halvingInterval && k * p.halvingInterval + r == 0
    ensures PaidOut(p, k, r) >= 0
  {
    if k > 0 {
      Ordered(p.halvingInterval, 1, k);
    }
  }

  /** However long the chain, the subsidies are at most twice those of the first halving
      interval, at a base that neither kind of first reward exceeds. */
  lemma SupplyIsBounded(p: Params, height: nat, base: nat)
    requires p.halvingInterval > 0 && Shrinks(p)
    requires p.firstReward / 16800 <= base && p.initialReward <= base
    ensures Subsidies(p, height) <= p.halvingInterval * (2 * base)
  {
    HighestFits(p, base);
    hide Subsidies, Highest, Shift;
    var i, k, r := p.halvingInterval, height / p.halvingInterval, height % p.halvingInterval;
    var s: int := Shift(Highest(p), k);
    SupplyAt(p, height, k, r);
    assert (r + 1) * s <= i * s by {
      Ordered(s, r + 1, i);
    }
    Gathered(i, Highest(p), s);
    Ordered(i, 2 * Highest(p) - s, 2 * Highest(p));
    Ordered(i, 2 * Highest(p), 2 * base);
  }

  lemma HighestFits(p: Params, base: nat)
    requires p.firstReward / 16800 <= base && p.initialReward <= base
    ensures Highest(p) <= base
  {
  }

  /** After any run of connects and disconnects, all coins together are worth at most that. */
  lemma CoinsAreBounded(p: Params, es: seq<Event>, base: nat)
    requires p.halvingInterval > 0 && Shrinks(p) && p.nativeCurrency && LegalRun(p, START, es)
    requires p.firstReward / 16800 <= base && p.initialReward <= base
    ensures Total(Worth, After(p, START, es).view) <= p.halvingInterval * (2 * base)
  {
    hide Shrinks, LegalRun, After, Total;
    BooksAreRight(p, es);
    SupplyIsBounded(p, |After(p, START, es).blocks|, base);
  }
}
