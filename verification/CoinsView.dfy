/** The coin set as the object that UpdateCoins, ConnectBlock and DisconnectBlock of
    src/core/main.cpp change step by step. */
module CoinsView {
  import opened Common
  import opened Transactions
  import opened CoinSet
  import opened BlockUndo
  import opened Ledger
  import ValueChecks

  class CoinsView {
    var coins: View

    constructor ()
      ensures coins == map[]
    {
      coins := map[];
    }

    /** Marks the inputs spent, one after the other, then adds the outputs. */
    method UpdateCoins(tx: Tx, height: int) returns (undos: seq<Undo>)
      requires ProperView(coins)
      requires !tx.IsCoinBase() ==> HaveInputs(coins, tx.vin) && Distinct(tx.vin)
      modifies this
      ensures CoinSet.UpdateCoins(old(coins), tx, height) == Some((coins, undos))
    {
      hide ProperView, HaveInputs, Distinct, SpendInputs, Spend, Put, FromTx;
      undos := [];
      SpendsStart(coins, tx.vin);
      if !tx.IsCoinBase() {
        InputsCanBeSpent(coins, tx.vin);
        for j := 0 to |tx.vin|
          invariant SpendInputs(old(coins), tx.vin[..j]) == Some((coins, undos))
        {
          SpendsGoOn(old(coins), tx.vin, j + 1);
          SpendsNext(old(coins), tx.vin, j);
          var (c, undo) := Spend(Get(coins, tx.vin[j].hash), tx.vin[j].n).value;
          coins := Put(coins, tx.vin[j].hash, c);
          undos := undos + [undo];
        }
        assert tx.vin[..|tx.vin|] == tx.vin;
      }
      coins := Put(coins, tx.hash, FromTx(tx, height));
    }

    /** One turn of the loop in ConnectBlock: the checks, the fee, the update. */
    method ConnectTx(p: Params, tx: Tx, height: nat) returns (ok: bool, undo: seq<Undo>, fee: int)
      requires height > 0 && ProperView(coins)
      modifies this
      ensures ok <==> Passes(p, old(coins), tx, height)
      ensures ok ==> CoinSet.UpdateCoins(old(coins), tx, height) == Some((coins, undo)) && ProperView(coins)
      ensures ok ==> fee == if tx.IsCoinBase() then 0 else GetValueIn(p, old(coins), tx) - GetValueOut(p, tx)
    {
      hide *;
      ok, undo, fee := false, [], 0;
      PassesMeans(p, coins, tx, height);
      var checked := ValueChecks.CheckTransaction(p, tx);
      if !checked {
        return;
      }
      if !tx.IsCoinBase() {
        var inputs := ValueChecks.CheckInputs(p, coins, tx, height);
        if !inputs {
          return;
        }
        var valueIn := ValueChecks.GetValueIn(p, coins, tx);
        var valueOut := ValueChecks.GetValueOut(p, tx);
        OutputsAreInRange(p, tx);
        fee := valueIn - valueOut.value;
      }
      ok := true;
      PassingCanConnect(p, coins, tx, height);
      UpdateCoinsProper(coins, tx, height);
      undo := UpdateCoins(tx, height);
    }

    /** The coin and value part of ConnectBlock. On a refusal the view is thrown away. */
    method ConnectBlock(p: Params, txs: seq<Tx>, height: nat) returns (ok: bool, undos: seq<seq<Undo>>)
      requires p.halvingInterval > 0 && height > 0 && ProperView(coins)
      modifies this
      ensures ok <==> ValidBlock(p, old(coins), txs, height)
      ensures ok ==> ConnectTxs(old(coins), txs, height) == Some((coins, undos))
    {
      hide *;
      undos := [];
      if txs == [] || !CoinbaseFirst(txs) {
        RefusedEarly(p, coins, txs, height);
        return false, undos;
      }
      var fees := 0;
      ConnectStarts(p, coins, txs, height);
      for i := 0 to |txs|
        invariant ProperView(coins)
        invariant AllPass(p, old(coins), txs[..i], height)
        invariant ConnectTxs(old(coins), txs[..i], height) == Some((coins, undos))
        invariant fees == Fees(p, old(coins), txs[..i], height)
      {
        PassGoesOn(p, old(coins), txs, i, height);
        FeesGoOn(p, old(coins), txs, i, height);
        var passed, undo, fee := ConnectTx(p, txs[i], height);
        if !passed {
          FailureStays(p, old(coins), txs, i + 1, height);
          AcceptedMeans(p, old(coins), txs, height);
          return false, undos;
        }
        ConnectGoesOn(old(coins), txs, i, height);
        fees := fees + fee;
        undos := if i == 0 then [] else undos + [undo];
      }
      assert txs[..|txs|] == txs;
      AcceptedMeans(p, old(coins), txs, height);
      ok := GetValueOut(p, txs[0]) <= GetBlockValue(p, height, fees);
    }

    /** Undoes the transactions of a block from the last to the first. */
    method DisconnectBlock(txs: seq<Tx>, undos: seq<seq<Undo>>, height: int) returns (ok: bool, clean: bool)
      modifies this
      ensures ok <==> BlockUndo.DisconnectBlock(old(coins), txs, undos, height).Some?
      ensures ok ==> BlockUndo.DisconnectBlock(old(coins), txs, undos, height) == Some((coins, clean))
    {
      hide DisconnectTxs, DisconnectTx, WithFlag, UndosFor;
      clean := true;
      if |undos| + 1 != |txs| {
        return false, clean;
      }
      ghost var whole := DisconnectTxs(coins, txs, undos, height);
      DisconnectStarts(coins, txs, undos, height);
      for i := |txs| downto 0
        invariant |undos| + 1 == |txs|
        invariant whole == WithFlag(DisconnectTxs(coins, txs[..i], UndosFor(undos, i), height), clean)
      {
        var tx := txs[i];
        var undo := if i == 0 then [] else undos[i - 1];
        DisconnectNext(coins, txs, undos, i, height, clean);
        if i > 0 && |undo| != |tx.vin| {
          return false, clean;
        }
        var (v, found) := DisconnectTx(coins, tx, undo, height, i == 0);
        coins, clean := v, clean && found;
      }
      DisconnectEnds(coins, txs, undos, height, clean);
      ok := true;
    }
  }

  lemma PassesMeans(p: Params, v: View, tx: Tx, height: int)
    ensures Passes(p, v, tx, height) <==>
              CheckTransaction(p, tx) && (!tx.IsCoinBase() ==> HaveInputs(v, tx.vin) && CheckInputs(p, v, tx, height))
    ensures CheckTransaction(p, tx) ==> Distinct(tx.vin)
  {
    hide HaveInputs, CheckInputs;
  }

  lemma OutputsAreInRange(p: Params, tx: Tx)
    requires CheckTransaction(p, tx)
    ensures ValueChecks.OutputsInRange(p, tx.vout)
  {
  }

  /** The records of the first `i` transactions. */
  ghost function UndosFor(undos: seq<seq<Undo>>, i: nat): (r: seq<seq<Undo>>)
    requires i <= |undos| + 1
    ensures |r| == if i == 0 then 0 else i - 1
  {
    if i == 0 then [] else undos[..i - 1]
  }

  /** A result, unclean if something before was. */
  ghost function WithFlag(r: Option<(View, bool)>, clean: bool): Option<(View, bool)> {
    match r
    case None => None
    case Some((v, c)) => Some((v, clean && c))
  }

  lemma DisconnectStarts(v: View, txs: seq<Tx>, undos: seq<seq<Undo>>, height: int)
    requires |undos| + 1 == |txs|
    ensures DisconnectTxs(v, txs, undos, height)
         == WithFlag(DisconnectTxs(v, txs[..|txs|], UndosFor(undos, |txs|), height), true)
  {
    hide DisconnectTxs;
    assert txs[..|txs|] == txs && undos[..|undos|] == undos;
  }

  lemma DisconnectNext(v: View, txs: seq<Tx>, undos: seq<seq<Undo>>, i: nat, height: int, clean: bool)
    requires |undos| + 1 == |txs| && i < |txs|
    ensures var undo := if i == 0 then [] else undos[i - 1];
            WithFlag(DisconnectTxs(v, txs[..i + 1], UndosFor(undos, i + 1), height), clean) ==
              if i > 0 && |undo| != |txs[i].vin| then None
              else
                var (v1, found) := DisconnectTx(v, txs[i], undo, height, i == 0);
                WithFlag(DisconnectTxs(v1, txs[..i], UndosFor(undos, i), height), clean && found)
  {
    hide DisconnectTx;
    assert txs[..i + 1][..i] == txs[..i];
    if i > 0 {
      assert UndosFor(undos, i + 1)[..i - 1] == UndosFor(undos, i);
    }
  }

  lemma DisconnectEnds(v: View, txs: seq<Tx>, undos: seq<seq<Undo>>, height: int, clean: bool)
    requires |undos| + 1 == |txs|
    ensures WithFlag(DisconnectTxs(v, txs[..0], UndosFor(undos, 0), height), clean) == Some((v, clean))
  {
  }

  /** If all inputs can be spent, so can the first few. */
  lemma {:induction false} SpendsGoOn(v: View, vin: seq<OutPoint>, j: nat)
    requires SpendInputs(v, vin).Some? && j <= |vin|
    ensures SpendInputs(v, vin[..j]).Some?
    decreases |vin|
  {
    hide SpendOne;
    if j == |vin| {
      assert vin[..j] == vin;
    } else {
      SpendsGoOn(v, vin[..|vin| - 1], j);
      assert vin[..|vin| - 1][..j] == vin[..j];
    }
  }

  lemma SpendsStart(v: View, vin: seq<OutPoint>)
    ensures SpendInputs(v, vin[..0]) == Some((v, []))
  {
  }

  lemma SpendsNext(v: View, vin: seq<OutPoint>, j: nat)
    requires j < |vin| && SpendInputs(v, vin[..j]).Some? && SpendInputs(v, vin[..j + 1]).Some?
    ensures var (v1, undos) := SpendInputs(v, vin[..j]).value;
            && Spend(Get(v1, vin[j].hash), vin[j].n).Some?
            && var (c, undo) := Spend(Get(v1, vin[j].hash), vin[j].n).value;
               SpendInputs(v, vin[..j + 1]) == Some((Put(v1, vin[j].hash, c), undos + [undo]))
  {
    hide Spend, Put;
    assert vin[..j + 1][..j] == vin[..j];
  }

  // What the next transaction adds to the recursive functions over a block.

  lemma ConnectStarts(p: Params, v: View, txs: seq<Tx>, height: int)
    ensures AllPass(p, v, txs[..0], height)
    ensures ConnectTxs(v, txs[..0], height) == Some((v, []))
    ensures Fees(p, v, txs[..0], height) == 0
  {
  }

  lemma RefusedEarly(p: Params, v: View, txs: seq<Tx>, height: nat)
    requires p.halvingInterval > 0 && (txs == [] || !CoinbaseFirst(txs))
    ensures !ValidBlock(p, v, txs, height)
  {
  }

  lemma AcceptedMeans(p: Params, v: View, txs: seq<Tx>, height: nat)
    requires p.halvingInterval > 0 && txs != [] && CoinbaseFirst(txs)
    ensures ValidBlock(p, v, txs, height) <==>
              AllPass(p, v, txs, height) && GetValueOut(p, txs[0]) <= GetBlockValue(p, height, Fees(p, v, txs, height))
  {
  }

  lemma PassGoesOn(p: Params, v: View, txs: seq<Tx>, i: nat, height: int)
    requires i < |txs| && ConnectTxs(v, txs[..i], height).Some?
    ensures AllPass(p, v, txs[..i + 1], height) <==>
              AllPass(p, v, txs[..i], height) && Passes(p, ConnectTxs(v, txs[..i], height).value.0, txs[i], height)
  {
    assert txs[..i + 1][..i] == txs[..i];
  }

  lemma FeesGoOn(p: Params, v: View, txs: seq<Tx>, i: nat, height: int)
    requires i < |txs| && ConnectTxs(v, txs[..i], height).Some?
    ensures var v1 := ConnectTxs(v, txs[..i], height).value.0;
            Fees(p, v, txs[..i + 1], height) == Fees(p, v, txs[..i], height)
              + if txs[i].IsCoinBase() then 0 else GetValueIn(p, v1, txs[i]) - GetValueOut(p, txs[i])
  {
    assert txs[..i + 1][..i] == txs[..i];
  }

  lemma ConnectGoesOn(v: View, txs: seq<Tx>, i: nat, height: int)
    requires i < |txs| && ConnectTxs(v, txs[..i], height).Some?
    requires CoinSet.UpdateCoins(ConnectTxs(v, txs[..i], height).value.0, txs[i], height).Some?
    ensures var (v1, undos1) := ConnectTxs(v, txs[..i], height).value;
            var (v2, undo) := CoinSet.UpdateCoins(v1, txs[i], height).value;
            ConnectTxs(v, txs[..i + 1], height) == Some((v2, if i == 0 then [] else undos1 + [undo]))
  {
    hide CoinSet.UpdateCoins;
    assert txs[..i + 1][..i] == txs[..i];
  }

  /** A block with a transaction that does not pass is not accepted. */
  lemma {:induction false} FailureStays(p: Params, v: View, txs: seq<Tx>, i: nat, height: int)
    requires i <= |txs| && !AllPass(p, v, txs[..i], height)
    ensures !AllPass(p, v, txs, height)
    decreases |txs|
  {
    if i == |txs| {
      assert txs[..i] == txs;
    } else {
      assert txs[..|txs| - 1][..i] == txs[..i];
      FailureStays(p, v, txs[..|txs| - 1], i, height);
    }
  }
}
