/** The checks on values as the loops that make them (src/core/main.cpp, src/storage/coins.cpp,
    src/primitives/transaction.cpp), against the predicates that say what they decide. */
module ValueChecks {
  import opened Common
  import opened Transactions
  import opened CoinSet
  import opened CoinSums
  import opened AddressIndex
  import opened Ledger

  /** Amounts that are in range, one by one and in every partial sum. */
  predicate OutputsInRange(p: Params, outs: seq<TxOut>) {
    && (forall i :: 0 <= i < |outs| ==> MoneyRange(p, outs[i].value))
    && forall k :: 0 <= k <= |outs| ==> MoneyRange(p, SumOuts(Amount, outs[..k]))
  }

  lemma SumNext(outs: seq<TxOut>, i: nat)
    requires i < |outs|
    ensures SumOuts(Amount, outs[..i + 1]) == SumOuts(Amount, outs[..i]) + outs[i].value
  {
    assert outs[..i + 1][..i] == outs[..i];
  }

  lemma InputNext(v: View, vin: seq<OutPoint>, i: nat)
    requires i < |vin| && OutputAt(v, vin[i]).Some?
    ensures InputSum(v, vin[..i + 1]) == InputSum(v, vin[..i]) + OutputAt(v, vin[i]).value.value
  {
    assert vin[..i + 1][..i] == vin[..i];
  }

  /** Adds up outputs, and stops at the first amount or sum out of range. */
  method AddUp(p: Params, outs: seq<TxOut>) returns (r: Option<int>)
    ensures r == if OutputsInRange(p, outs) then Some(SumOuts(Amount, outs)) else None
  {
    hide SumOuts;
    var sum := 0;
    NoOutputs();
    for i := 0 to |outs|
      invariant sum == SumOuts(Amount, outs[..i])
      invariant forall j :: 0 <= j < i ==> MoneyRange(p, outs[j].value)
      invariant forall k :: 0 <= k <= i ==> MoneyRange(p, SumOuts(Amount, outs[..k]))
    {
      SumNext(outs, i);
      sum := sum + outs[i].value;
      if !MoneyRange(p, outs[i].value) || !MoneyRange(p, sum) {
        return None;
      }
    }
    assert outs[..|outs|] == outs;
    return Some(sum);
  }

  lemma NoOutputs()
    ensures SumOuts(Amount, []) == 0
  {
  }

  /** CheckTransaction. */
  method CheckTransaction(p: Params, tx: Tx) returns (ok: bool)
    ensures ok <==> Ledger.CheckTransaction(p, tx)
  {
    hide SumOuts;
    if tx.vin == [] || tx.vout == [] {
      return false;
    }
    var sum := AddUp(p, tx.vout);
    if sum == None {
      return false;
    }
    var seen: set<OutPoint> := {};
    for i := 0 to |tx.vin|
      invariant seen == set o | o in tx.vin[..i]
      invariant forall j, k :: 0 <= j < k < i ==> tx.vin[j] != tx.vin[k]
    {
      if tx.vin[i] in seen {
        assert exists j :: 0 <= j < i && tx.vin[j] == tx.vin[i];
        return false;
      }
      seen := seen + {tx.vin[i]};
      assert tx.vin[..i + 1] == tx.vin[..i] + [tx.vin[i]];
    }
    if !tx.IsCoinBase() {
      for i := 0 to |tx.vin|
        invariant forall j :: 0 <= j < i ==> tx.vin[j] != NULL_OUTPOINT
      {
        if tx.vin[i] == NULL_OUTPOINT {
          return false;
        }
      }
    }
    return true;
  }

  /** HaveInputs, for a transaction that is no coinbase. */
  method HaveInputs(v: View, vin: seq<OutPoint>) returns (ok: bool)
    ensures ok <==> CoinSet.HaveInputs(v, vin)
  {
    for i := 0 to |vin|
      invariant forall j :: 0 <= j < i ==> Get(v, vin[j].hash).IsAvailable(vin[j].n)
    {
      if !Get(v, vin[i].hash).IsAvailable(vin[i].n) {
        return false;
      }
    }
    return true;
  }

  /** GetValueOut. None is the exception for a value out of range. */
  method GetValueOut(p: Params, tx: Tx) returns (r: Option<int>)
    ensures r == if !p.nativeCurrency || OutputsInRange(p, tx.vout) then Some(Ledger.GetValueOut(p, tx)) else None
  {
    if !p.nativeCurrency {
      return Some(0);
    }
    r := AddUp(p, tx.vout);
  }

  /** GetValueIn. */
  method GetValueIn(p: Params, v: View, tx: Tx) returns (r: int)
    requires tx.IsCoinBase() || CoinSet.HaveInputs(v, tx.vin)
    ensures r == Ledger.GetValueIn(p, v, tx)
  {
    r := 0;
    if p.nativeCurrency && !tx.IsCoinBase() {
      for i := 0 to |tx.vin|
        invariant r == InputSum(v, tx.vin[..i])
      {
        InputNext(v, tx.vin, i);
        r := r + Get(v, tx.vin[i].hash).vout[tx.vin[i].n].value;
      }
      assert tx.vin[..|tx.vin|] == tx.vin;
    }
  }

  /** What one input is asked for. */
  predicate InputPasses(p: Params, v: View, o: OutPoint, height: int) {
    && (Get(v, o.hash).coinBase ==> height - Get(v, o.hash).height >= p.maturity)
    && OutputAt(v, o).Some?
    && MoneyRange(p, OutputAt(v, o).value.value)
  }

  /** The value checks of CheckInputs, for a transaction that is no coinbase. */
  method CheckInputs(p: Params, v: View, tx: Tx, height: int) returns (ok: bool)
    requires Ledger.CheckTransaction(p, tx)
    ensures ok <==> CoinSet.HaveInputs(v, tx.vin) && Ledger.CheckInputs(p, v, tx, height)
  {
    hide InputSum, SumOuts, OutputAt;
    ok := HaveInputs(v, tx.vin);
    if !ok {
      return;
    }
    var sum := 0;
    NoInputs(v);
    for i := 0 to |tx.vin|
      invariant sum == InputSum(v, tx.vin[..i])
      invariant forall j :: 0 <= j < i ==> InputPasses(p, v, tx.vin[j], height)
      invariant forall k :: 0 <= k <= i ==> MoneyRange(p, InputSum(v, tx.vin[..k]))
    {
      var coins, n := Get(v, tx.vin[i].hash), tx.vin[i].n;
      OutputIs(v, tx.vin[i]);
      InputNext(v, tx.vin, i);
      if coins.coinBase && height - coins.height < p.maturity {
        return false;
      }
      sum := sum + coins.vout[n].value;
      if !MoneyRange(p, coins.vout[n].value) || !MoneyRange(p, sum) {
        return false;
      }
    }
    assert tx.vin[..|tx.vin|] == tx.vin;
    AllInputsPass(p, v, tx, height);
    var out := GetValueOut(p, tx);
    if sum < out.value {
      return false;
    }
    return MoneyRange(p, sum - out.value);
  }

  lemma NoInputs(v: View)
    ensures InputSum(v, []) == 0
  {
  }

  lemma OutputIs(v: View, o: OutPoint)
    requires Get(v, o.hash).IsAvailable(o.n)
    ensures OutputAt(v, o) == Some(Get(v, o.hash).vout[o.n])
  {
  }

  lemma AllInputsPass(p: Params, v: View, tx: Tx, height: int)
    requires forall j :: 0 <= j < |tx.vin| ==> InputPasses(p, v, tx.vin[j], height)
    requires forall k :: 0 <= k <= |tx.vin| ==> MoneyRange(p, InputSum(v, tx.vin[..k]))
    ensures Ledger.CheckInputs(p, v, tx, height) <==>
              InputSum(v, tx.vin) >= Ledger.GetValueOut(p, tx) &&
              MoneyRange(p, InputSum(v, tx.vin) - Ledger.GetValueOut(p, tx))
  {
    hide InputSum, OutputAt;
  }
}
