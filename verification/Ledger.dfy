/** The checks that ConnectBlock makes on values (src/core/main.cpp): how much a block may
    create, and that no block creates more. */
module Ledger {
  import opened Common
  import opened Transactions
  import opened CoinSet
  import opened BlockUndo
  import opened CoinSums
  import opened AddressIndex

  /** Chain parameters. `fifth` is the conversion of an amount times 0.2 back to an amount. */
  datatype Params = Params(
    maxMoney: nat,
    maturity: int,
    nativeCurrency: bool,
    initialReward: nat,
    firstReward: nat,
    rewardAdjustment: int,
    rewardAdjustment2: int,
    halvingInterval: nat,
    fifth: nat -> nat)

  predicate MoneyRange(p: Params, x: int) {
    0 <= x <= p.maxMoney
  }

  /** A right shift. */
  function Shift(n: nat, k: nat): nat {
    if k == 0 then n else Shift(n / 2, k - 1)
  }

  /** The subsidy before it is halved. */
  function SubsidyBase(p: Params, height: nat): nat {
    var s1 := if height >= p.rewardAdjustment then p.initialReward / 2 else p.initialReward;
    var s2 := if height >= p.rewardAdjustment2 then p.fifth(s1) else s1;
    if height < 16801 && p.firstReward != 0 then p.firstReward / 16800 else s2
  }

  function GetSubsidy(p: Params, height: nat): nat
    requires p.halvingInterval > 0
  {
    var halvings: nat := height / p.halvingInterval;
    if halvings >= 64 then 0 else Shift(SubsidyBase(p, height), halvings)
  }

  function GetBlockValue(p: Params, height: nat, fees: int): int
    requires p.halvingInterval > 0
  {
    GetSubsidy(p, height) + fees
  }

  function Amount(o: TxOut): int { o.value }

  function GetValueOut(p: Params, tx: Tx): int {
    if p.nativeCurrency then SumOuts(Amount, tx.vout) else 0
  }

  function InputSum(v: View, vin: seq<OutPoint>): int {
    if vin == [] then 0
    else
      var last := |vin| - 1;
      InputSum(v, vin[..last]) + match OutputAt(v, vin[last]) case None => 0 case Some(out) => out.value
  }

  function GetValueIn(p: Params, v: View, tx: Tx): int {
    if !p.nativeCurrency || tx.IsCoinBase() then 0 else InputSum(v, tx.vin)
  }

  /** CheckTransaction, without the size limits. */
  predicate CheckTransaction(p: Params, tx: Tx) {
    && tx.vin != [] && tx.vout != []
    && (forall i :: 0 <= i < |tx.vout| ==> MoneyRange(p, tx.vout[i].value))
    && (forall k :: 0 <= k <= |tx.vout| ==> MoneyRange(p, SumOuts(Amount, tx.vout[..k])))
    && Distinct(tx.vin)
    && (!tx.IsCoinBase() ==> forall i :: 0 <= i < |tx.vin| ==> tx.vin[i] != NULL_OUTPOINT)
  }

  /** The value checks of CheckInputs. */
  predicate CheckInputs(p: Params, v: View, tx: Tx, height: int) {
    && (forall i :: 0 <= i < |tx.vin| ==>
          && (Get(v, tx.vin[i].hash).coinBase ==> height - Get(v, tx.vin[i].hash).height >= p.maturity)
          && OutputAt(v, tx.vin[i]).Some?
          && MoneyRange(p, OutputAt(v, tx.vin[i]).value.value))
    && (forall k :: 0 <= k <= |tx.vin| ==> MoneyRange(p, InputSum(v, tx.vin[..k])))
    && InputSum(v, tx.vin) >= GetValueOut(p, tx)
    && MoneyRange(p, InputSum(v, tx.vin) - GetValueOut(p, tx))
  }

  /** What ConnectBlock asks of one transaction before it updates the coins. */
  predicate Passes(p: Params, v: View, tx: Tx, height: int) {
    && CheckTransaction(p, tx)
    && (!tx.IsCoinBase() ==> HaveInputs(v, tx.vin) && CheckInputs(p, v, tx, height))
  }

  predicate AllPass(p: Params, v: View, txs: seq<Tx>, height: int) {
    txs == [] ||
    var init, tx := txs[..|txs| - 1], txs[|txs| - 1];
    && AllPass(p, v, init, height)
    && ConnectTxs(v, init, height).Some?
    && Passes(p, ConnectTxs(v, init, height).value.0, tx, height)
  }

  /** nFees after the loop of ConnectBlock. */
  function Fees(p: Params, v: View, txs: seq<Tx>, height: int): int {
    if txs == [] then 0
    else
      var init, tx := txs[..|txs| - 1], txs[|txs| - 1];
      match ConnectTxs(v, init, height)
      case None => 0
      case Some((v1, _)) =>
        Fees(p, v, init, height) + if tx.IsCoinBase() then 0 else GetValueIn(p, v1, tx) - GetValueOut(p, tx)
  }

  /** A block that ConnectBlock accepts, as far as coins and values go. */
  predicate ValidBlock(p: Params, v: View, txs: seq<Tx>, height: nat)
    requires p.halvingInterval > 0
  {
    && txs != []
    && CoinbaseFirst(txs)
    && AllPass(p, v, txs, height)
    && GetValueOut(p, txs[0]) <= GetBlockValue(p, height, Fees(p, v, txs, height))
  }

  // ----- accepted blocks can be connected

  lemma PassingCanConnect(p: Params, v: View, tx: Tx, height: int)
    requires ProperView(v) && Passes(p, v, tx, height)
    ensures UpdateCoins(v, tx, height).Some? && ValuesAreValid(tx)
  {
    if !tx.IsCoinBase() {
      InputsCanBeSpent(v, tx.vin);
    }
  }

  predicate CoinbaseFirst(txs: seq<Tx>) {
    forall i :: 0 <= i < |txs| ==> (txs[i].IsCoinBase() <==> i == 0)
  }

  lemma {:induction false} AllPassHaveValues(p: Params, v: View, txs: seq<Tx>, height: int, i: nat)
    requires AllPass(p, v, txs, height) && i < |txs|
    ensures ValuesAreValid(txs[i])
  {
    if i < |txs| - 1 {
      AllPassHaveValues(p, v, txs[..|txs| - 1], height, i);
    }
  }

  lemma {:induction false} AllPassCanConnect(p: Params, v: View, txs: seq<Tx>, height: int)
    requires ProperView(v) && height != 0 && AllPass(p, v, txs, height) && CoinbaseFirst(txs)
    ensures WellFormed(txs) && ConnectTxs(v, txs, height).Some?
    ensures ProperView(ConnectTxs(v, txs, height).value.0)
  {
    forall i | 0 <= i < |txs| ensures ValuesAreValid(txs[i]) {
      AllPassHaveValues(p, v, txs, height, i);
    }
    if txs != [] {
      var init, tx := txs[..|txs| - 1], txs[|txs| - 1];
      ConnectTxsProper(v, init, height);
      PassingCanConnect(p, ConnectTxs(v, init, height).value.0, tx, height);
      ConnectTxsProper(v, txs, height);
    }
  }

  // ----- no block creates more than its subsidy

  function Worth(o: TxOut): int {
    if o.value < 0 then 0 else o.value
  }

  lemma {:induction false} WorthOfOutputs(outs: seq<TxOut>)
    ensures SumOuts(Worth, outs) >= 0
    ensures SumOuts(Spendable(Worth), outs) <= SumOuts(Worth, outs)
    ensures (forall i :: 0 <= i < |outs| ==> outs[i].value >= 0) ==> SumOuts(Worth, outs) == SumOuts(Amount, outs)
  {
    if outs != [] {
      WorthOfOutputs(outs[..|outs| - 1]);
    }
  }

  lemma {:induction false} WorthOfInputs(v: View, vin: seq<OutPoint>, undos: seq<Undo>)
    requires |vin| == |undos|
    requires forall i :: 0 <= i < |vin| ==> OutputAt(v, vin[i]) == Some(undos[i].txout) && undos[i].txout.value >= 0
    ensures SumUndos(Worth, undos) == InputSum(v, vin)
    decreases |vin|
  {
    if vin != [] {
      var last := |vin| - 1;
      WorthOfInputs(v, vin[..last], undos[..last]);
    }
  }

  /** What a transaction takes out of circulation: outputs that cannot be spent, and coins that it
      replaces. `v1` is the coin set after its inputs are spent. */
  function Burned(v1: View, tx: Tx): int {
    SumOuts(Unspendable(Worth), tx.vout) + SumOuts(Worth, Get(v1, tx.hash).vout)
  }

  lemma BurnedIsNat(v1: View, tx: Tx)
    ensures Burned(v1, tx) >= 0
  {
    SumOutsZero(Unspendable(Worth), tx.vout);
    WorthOfOutputs(Get(v1, tx.hash).vout);
  }

  /** What a transaction that passes does to the worth of the coin set, exactly: it takes out its
      fee and what it burns. */
  lemma PassingAccounts(p: Params, v: View, tx: Tx, height: int)
    requires ProperView(v) && Passes(p, v, tx, height) && UpdateCoins(v, tx, height).Some?
    requires p.nativeCurrency
    ensures Total(Worth, UpdateCoins(v, tx, height).value.0)
            == Total(Worth, v) - GetValueIn(p, v, tx) + GetValueOut(p, tx) - Burned(SpendPhase(v, tx).value.0, tx)
  {
    hide Total, SumOuts, Worth, ProperView;
    var undos := UpdateCoins(v, tx, height).value.1;
    UpdateCoinsTotalOfWorth(v, tx, height);
    SumOutsSplit(Worth, tx.vout);
    PassingOutputs(p, v, tx, height);
    if tx.IsCoinBase() {
      NoUndosNoWorth();
    } else {
      PassingInputs(p, v, tx, height);
      WorthOfInputs(v, tx.vin, undos);
    }
  }

  lemma UpdateCoinsTotalOfWorth(v: View, tx: Tx, height: int)
    requires UpdateCoins(v, tx, height).Some?
    ensures var (v', undos) := UpdateCoins(v, tx, height).value;
            Total(Worth, v') == Total(Worth, v) - SumUndos(Worth, undos) + SumOuts(Spendable(Worth), tx.vout)
                                - SumOuts(Worth, Get(SpendPhase(v, tx).value.0, tx.hash).vout)
  {
    UpdateCoinsTotal(Worth, v, tx, height);
  }

  lemma NoUndosNoWorth()
    ensures SumUndos(Worth, []) == 0
  {
  }

  lemma PassingOutputs(p: Params, v: View, tx: Tx, height: int)
    requires Passes(p, v, tx, height) && p.nativeCurrency
    ensures SumOuts(Worth, tx.vout) == GetValueOut(p, tx)
  {
    WorthOfOutputs(tx.vout);
  }

  lemma PassingInputs(p: Params, v: View, tx: Tx, height: int)
    requires ProperView(v) && Passes(p, v, tx, height) && !tx.IsCoinBase() && UpdateCoins(v, tx, height).Some?
    ensures var undos := UpdateCoins(v, tx, height).value.1;
            && |undos| == |tx.vin|
            && forall i :: 0 <= i < |tx.vin| ==>
                 OutputAt(v, tx.vin[i]) == Some(undos[i].txout) && undos[i].txout.value >= 0
  {
    InputsCanBeSpent(v, tx.vin);
  }

  /** A transaction that passes takes its fee out of the coin set, or more if some output
      cannot be spent or coins are overwritten. */
  lemma PassingLosesFee(p: Params, v: View, tx: Tx, height: int)
    requires ProperView(v) && Passes(p, v, tx, height) && UpdateCoins(v, tx, height).Some?
    requires p.nativeCurrency
    ensures Total(Worth, UpdateCoins(v, tx, height).value.0)
            <= Total(Worth, v) - GetValueIn(p, v, tx) + GetValueOut(p, tx)
  {
    hide *;
    PassingAccounts(p, v, tx, height);
    CanSpend(v, tx, height);
    BurnedIsNat(SpendPhase(v, tx).value.0, tx);
  }

  lemma CanSpend(v: View, tx: Tx, height: int)
    requires UpdateCoins(v, tx, height).Some?
    ensures SpendPhase(v, tx).Some?
  {
  }

  function BlockBurned(v: View, txs: seq<Tx>, height: int): int {
    if txs == [] then 0
    else
      var init, tx := txs[..|txs| - 1], txs[|txs| - 1];
      match ConnectTxs(v, init, height)
      case None => 0
      case Some((v1, _)) =>
        match SpendPhase(v1, tx)
        case None => 0
        case Some((v2, _)) => BlockBurned(v, init, height) + Burned(v2, tx)
  }

  lemma {:induction false} BlockBurnedIsNat(v: View, txs: seq<Tx>, height: int)
    ensures BlockBurned(v, txs, height) >= 0
  {
    hide ConnectTxs, SpendPhase, Burned;
    if txs != [] {
      var init, tx := txs[..|txs| - 1], txs[|txs| - 1];
      BlockBurnedIsNat(v, init, height);
      if ConnectTxs(v, init, height).Some? && SpendPhase(ConnectTxs(v, init, height).value.0, tx).Some? {
        BurnedIsNat(SpendPhase(ConnectTxs(v, init, height).value.0, tx).value.0, tx);
      }
    }
  }

  /** What a block does to the worth, exactly: the fees go, the coinbase comes, and what is burned
      is lost. */
  lemma {:induction false} BlockWorthIs(p: Params, v: View, txs: seq<Tx>, height: int)
    requires ProperView(v) && height != 0 && AllPass(p, v, txs, height) && p.nativeCurrency
    requires CoinbaseFirst(txs)
    ensures ConnectTxs(v, txs, height).Some?
    ensures Total(Worth, ConnectTxs(v, txs, height).value.0)
            == Total(Worth, v) - Fees(p, v, txs, height) + (if txs == [] then 0 else GetValueOut(p, txs[0]))
               - BlockBurned(v, txs, height)
  {
    hide Total, Worth, Burned, GetValueOut, ProperView, Passes, UpdateCoins, SpendPhase;
    if txs != [] {
      var init, tx := txs[..|txs| - 1], txs[|txs| - 1];
      AllPassCanConnect(p, v, txs, height);
      AllPassCanConnect(p, v, init, height);
      BlockWorthIs(p, v, init, height);
      var v1 := ConnectTxs(v, init, height).value.0;
      CoinbaseHasNoInputs(p, v1, tx);
      PassingAccounts(p, v1, tx, height);
      CanSpend(v1, tx, height);
    }
  }

  lemma CoinbaseHasNoInputs(p: Params, v: View, tx: Tx)
    ensures tx.IsCoinBase() ==> GetValueIn(p, v, tx) == 0
  {
  }

  lemma BlockWorth(p: Params, v: View, txs: seq<Tx>, height: int)
    requires ProperView(v) && height != 0 && AllPass(p, v, txs, height) && p.nativeCurrency
    requires CoinbaseFirst(txs)
    ensures ConnectTxs(v, txs, height).Some?
    ensures Total(Worth, ConnectTxs(v, txs, height).value.0)
            <= Total(Worth, v) - Fees(p, v, txs, height) + if txs == [] then 0 else GetValueOut(p, txs[0])
  {
    hide *;
    BlockWorthIs(p, v, txs, height);
    BlockBurnedIsNat(v, txs, height);
  }

  /** A valid block adds its subsidy, less what the coinbase leaves of it and of the fees, and less
      what it burns. */
  lemma BlockAddsSubsidy(p: Params, v: View, txs: seq<Tx>, height: nat)
    requires p.halvingInterval > 0 && height > 0
    requires ProperView(v) && ValidBlock(p, v, txs, height) && p.nativeCurrency
    ensures ConnectTxs(v, txs, height).Some?
    ensures var left := GetBlockValue(p, height, Fees(p, v, txs, height)) - GetValueOut(p, txs[0]);
            && left >= 0
            && Total(Worth, ConnectTxs(v, txs, height).value.0)
               == Total(Worth, v) + GetBlockValue(p, height, 0) - left - BlockBurned(v, txs, height)
  {
    BlockWorthIs(p, v, txs, height);
  }

  /** With a native currency, connecting a block raises the worth of the coin set by at most
      the subsidy at its height. */
  lemma BlockCreatesAtMostSubsidy(p: Params, v: View, txs: seq<Tx>, height: nat)
    requires p.halvingInterval > 0 && height > 0
    requires ProperView(v) && ValidBlock(p, v, txs, height) && p.nativeCurrency
    ensures ConnectTxs(v, txs, height).Some?
    ensures Total(Worth, ConnectTxs(v, txs, height).value.0) <= Total(Worth, v) + GetBlockValue(p, height, 0)
  {
    BlockWorth(p, v, txs, height);
  }

  /** No block raises the worth by more than the subsidy. */
  ghost predicate IsConserved(p: Params, v: View, txs: seq<Tx>, height: nat)
    requires p.halvingInterval > 0
  {
    ProperView(v) && ValidBlock(p, v, txs, height) && ConnectTxs(v, txs, height).Some? ==>
      Total(Worth, ConnectTxs(v, txs, height).value.0) <= Total(Worth, v) + GetBlockValue(p, height, 0)
  }

  /** Value is conserved in all blocks of a height, if and only if there is a native currency. */
  lemma ConservedIffNative(p: Params, height: nat)
    requires p.halvingInterval > 0 && height > 0 && GetBlockValue(p, height, 0) < p.maxMoney
    ensures (forall v: View, txs: seq<Tx> :: IsConserved(p, v, txs, height)) <==> p.nativeCurrency
  {
    hide ValidBlock, ConnectTxs, Total, GetSubsidy;
    if p.nativeCurrency {
      forall v: View, txs: seq<Tx> ensures IsConserved(p, v, txs, height) {
        if ProperView(v) && ValidBlock(p, v, txs, height) {
          BlockCreatesAtMostSubsidy(p, v, txs, height);
        }
      }
    } else {
      var amount := GetBlockValue(p, height, 0) + 1;
      var txs := [Tx(1, 1, [NULL_OUTPOINT], [TxOut(amount, EMPTY_SCRIPT)])];
      NoNativeCurrencyNoBound(p, height, amount);
      assert !IsConserved(p, map[], txs, height);
    }
  }

  lemma LoneCoinbasePasses(p: Params, tx: Tx, height: nat, amount: nat)
    requires amount <= p.maxMoney && tx == Tx(1, 1, [NULL_OUTPOINT], [TxOut(amount, EMPTY_SCRIPT)])
    ensures Passes(p, map[], tx, height)
    ensures SumOuts(Spendable(Worth), tx.vout) == amount
  {
    assert tx.vout[..1] == tx.vout && tx.vout[..0] == [];
    assert SumOuts(Amount, tx.vout) == amount;
    assert Spendable(Worth)(tx.vout[0]) == Worth(tx.vout[0]) == amount;
  }

  /** Without one, any amount within the money range comes out of nothing: GetValueOut is 0
      for every transaction. */
  lemma NoNativeCurrencyNoBound(p: Params, height: nat, amount: nat)
    requires p.halvingInterval > 0 && height > 0 && amount <= p.maxMoney && !p.nativeCurrency
    ensures var txs := [Tx(1, 1, [NULL_OUTPOINT], [TxOut(amount, EMPTY_SCRIPT)])];
            && ValidBlock(p, map[], txs, height)
            && ConnectTxs(map[], txs, height).Some?
            && Total(Worth, ConnectTxs(map[], txs, height).value.0) == Total(Worth, map[]) + amount
  {
    var tx := Tx(1, 1, [NULL_OUTPOINT], [TxOut(amount, EMPTY_SCRIPT)]);
    var txs, empty := [tx], [];
    assert txs[..0] == empty && ConnectTxs(map[], empty, height) == Some((map[], []));
    LoneCoinbasePasses(p, tx, height, amount);
    var subsidy: nat := GetSubsidy(p, height);
    assert Fees(p, map[], txs, height) == 0 && GetBlockValue(p, height, 0) == subsidy && GetValueOut(p, tx) == 0;
    assert ValidBlock(p, map[], txs, height);
    UpdateCoinsTotal(Worth, map[], tx, height);
    assert ConnectTxs(map[], txs, height) == Some((UpdateCoins(map[], tx, height).value.0, []));
  }
}
