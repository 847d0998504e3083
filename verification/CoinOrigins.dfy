/** Where unspent outputs come from (src/core/main.cpp, src/storage/coins.h): a txid stands for
    one transaction, and what is unspent under it is among that transaction's outputs. So coins
    that are overwritten are overwritten by the same ones, spent or not. */
module CoinOrigins {
  import opened Transactions
  import opened CoinSet
  import opened BlockUndo

  /** The height that coins of pool transactions are given (src/chain/txmempool.h). */
  const MEMPOOL_HEIGHT := 0x7fff_ffff

  predicate IsCoin(v: View, o: OutPoint) {
    Get(v, o.hash).IsAvailable(o.n)
  }

  predicate Makes(tx: Tx, o: OutPoint) {
    tx.hash == o.hash && FromTx(tx, MEMPOOL_HEIGHT).IsAvailable(o.n)
  }

  /** The transaction that a txid stands for. */
  type Naming = Hash -> Tx

  ghost predicate Named(id: Naming, txs: seq<Tx>) {
    forall i :: 0 <= i < |txs| ==> id(txs[i].hash) == txs[i]
  }

  predicate IsOutput(id: Naming, o: OutPoint) {
    id(o.hash).hash == o.hash && Makes(id(o.hash), o)
  }

  /** Every coin is an output of the transaction its txid stands for. */
  ghost predicate CoinsNamed(id: Naming, v: View) {
    forall o :: IsCoin(v, o) ==> IsOutput(id, o)
  }

  lemma MadeIsStored(v: View, tx: Tx, height: int, o: OutPoint)
    requires tx.hash == o.hash
    ensures IsCoin(Put(v, tx.hash, FromTx(tx, height)), o) <==> Makes(tx, o)
  {
    TrimmedStays(FromTx(tx, height).vout);
  }

  /** An output that is waited for: of a block transaction that has not been looked at yet. */
  ghost predicate Waits(txs: seq<Tx>, k: nat, o: OutPoint) {
    exists i :: k <= i < |txs| && Makes(txs[i], o)
  }

  // ----- connecting

  lemma UpdateCoinsMakes(v: View, tx: Tx, height: int, o: OutPoint)
    requires UpdateCoins(v, tx, height).Some? && Makes(tx, o)
    ensures IsCoin(UpdateCoins(v, tx, height).value.0, o)
  {
    MadeIsStored(SpendPhase(v, tx).value.0, tx, height, o);
  }

  /** What is not spent stays, even when the transaction overwrites coins. */
  lemma UpdateCoinsKeeps(id: Naming, v: View, tx: Tx, height: int, o: OutPoint)
    requires ProperView(v) && UpdateCoins(v, tx, height).Some? && CoinsNamed(id, v) && id(tx.hash) == tx
    requires IsCoin(v, o) && o !in tx.vin
    ensures IsCoin(UpdateCoins(v, tx, height).value.0, o)
  {
    assert IsOutput(id, o);
    if tx.hash == o.hash {
      UpdateCoinsMakes(v, tx, height, o);
    } else if !tx.IsCoinBase() {
      SpendInputsElsewhere(v, tx.vin, o);
    }
  }

  lemma SpendOneOnlySpends(v: View, s: OutPoint, o: OutPoint)
    requires SpendOne(v, s).Some? && IsCoin(SpendOne(v, s).value.0, o)
    ensures IsCoin(v, o)
  {
  }

  lemma {:induction false} SpendInputsOnlySpends(v: View, vin: seq<OutPoint>, o: OutPoint)
    requires SpendInputs(v, vin).Some? && IsCoin(SpendInputs(v, vin).value.0, o)
    ensures IsCoin(v, o)
  {
    hide IsCoin, SpendOne;
    if vin != [] {
      var last := |vin| - 1;
      SpendOneOnlySpends(SpendInputs(v, vin[..last]).value.0, vin[last], o);
      SpendInputsOnlySpends(v, vin[..last], o);
    }
  }

  /** What is there after a transaction was there before, or it has made it. */
  lemma UpdatedFrom(v: View, tx: Tx, height: int, o: OutPoint)
    requires UpdateCoins(v, tx, height).Some? && IsCoin(UpdateCoins(v, tx, height).value.0, o)
    ensures IsCoin(v, o) || Makes(tx, o)
  {
    if tx.hash == o.hash {
      MadeIsStored(SpendPhase(v, tx).value.0, tx, height, o);
    } else if !tx.IsCoinBase() {
      SpendInputsOnlySpends(v, tx.vin, o);
    }
  }

  lemma UpdateCoinsNamed(id: Naming, v: View, tx: Tx, height: int)
    requires UpdateCoins(v, tx, height).Some? && CoinsNamed(id, v) && id(tx.hash) == tx
    ensures CoinsNamed(id, UpdateCoins(v, tx, height).value.0)
  {
    hide UpdateCoins, IsCoin;
    forall o | IsCoin(UpdateCoins(v, tx, height).value.0, o) ensures IsOutput(id, o) {
      UpdatedFrom(v, tx, height, o);
    }
  }

  lemma {:induction false} ConnectNamed(id: Naming, v: View, txs: seq<Tx>, height: int)
    requires ConnectTxs(v, txs, height).Some? && CoinsNamed(id, v) && Named(id, txs)
    ensures CoinsNamed(id, ConnectTxs(v, txs, height).value.0)
  {
    hide UpdateCoins, CoinsNamed;
    if txs != [] {
      var init, tx := txs[..|txs| - 1], txs[|txs| - 1];
      ConnectNamed(id, v, init, height);
      UpdateCoinsNamed(id, ConnectTxs(v, init, height).value.0, tx, height);
    }
  }

  lemma {:induction false} ConnectKeeps(id: Naming, v: View, txs: seq<Tx>, height: int, o: OutPoint)
    requires ProperView(v) && ConnectTxs(v, txs, height).Some? && WellFormed(txs) && height != 0
    requires CoinsNamed(id, v) && Named(id, txs)
    requires IsCoin(v, o) && forall i :: 0 <= i < |txs| ==> o !in txs[i].vin
    ensures IsCoin(ConnectTxs(v, txs, height).value.0, o)
  {
    hide UpdateCoins, CoinsNamed, ProperView, IsCoin;
    if txs != [] {
      var init, tx := txs[..|txs| - 1], txs[|txs| - 1];
      ConnectKeeps(id, v, init, height, o);
      ConnectTxsProper(v, init, height);
      ConnectNamed(id, v, init, height);
      UpdateCoinsKeeps(id, ConnectTxs(v, init, height).value.0, tx, height, o);
    }
  }

  lemma {:induction false} ConnectMakes(id: Naming, v: View, txs: seq<Tx>, height: int, k: nat, o: OutPoint)
    requires ProperView(v) && ConnectTxs(v, txs, height).Some? && WellFormed(txs) && height != 0
    requires CoinsNamed(id, v) && Named(id, txs) && k < |txs| && Makes(txs[k], o)
    requires forall i :: 0 <= i < |txs| ==> o !in txs[i].vin
    ensures IsCoin(ConnectTxs(v, txs, height).value.0, o)
  {
    hide UpdateCoins, CoinsNamed, ProperView, IsCoin, Makes;
    var init, tx := txs[..|txs| - 1], txs[|txs| - 1];
    var v1 := ConnectTxs(v, init, height).value.0;
    if k == |init| {
      UpdateCoinsMakes(v1, tx, height, o);
    } else {
      ConnectMakes(id, v, init, height, k, o);
      ConnectTxsProper(v, init, height);
      ConnectNamed(id, v, init, height);
      UpdateCoinsKeeps(id, v1, tx, height, o);
    }
  }

  /** Whatever is unspent after a block was unspent before, or the block has made it. */
  lemma {:induction false} ConnectedFrom(v: View, txs: seq<Tx>, height: int, o: OutPoint)
    requires ConnectTxs(v, txs, height).Some? && IsCoin(ConnectTxs(v, txs, height).value.0, o)
    ensures IsCoin(v, o) || Waits(txs, 0, o)
  {
    hide UpdateCoins, IsCoin, Makes;
    if txs != [] {
      var init, tx := txs[..|txs| - 1], txs[|txs| - 1];
      UpdatedFrom(ConnectTxs(v, init, height).value.0, tx, height, o);
      if !Makes(tx, o) {
        ConnectedFrom(v, init, height, o);
        if Waits(init, 0, o) {
          var i :| 0 <= i < |init| && Makes(init[i], o);
          assert Makes(txs[i], o);
        }
      }
    }
  }

  // ----- what a block and its undo records say

  ghost predicate InputsNamed(id: Naming, vin: seq<OutPoint>) {
    forall i :: 0 <= i < |vin| ==> IsOutput(id, vin[i])
  }

  ghost predicate NoNulls(undos: seq<Undo>) {
    forall i :: 0 <= i < |undos| ==> !undos[i].txout.IsNull()
  }

  /** Every input but the coinbase's is an output of the transaction it names, and every undo
      record holds an output. */
  ghost predicate RecordFits(id: Naming, txs: seq<Tx>, undos: seq<seq<Undo>>) {
    && Named(id, txs)
    && (forall i :: 0 <= i < |txs| && !txs[i].IsCoinBase() ==> InputsNamed(id, txs[i].vin))
    && forall j :: 0 <= j < |undos| ==> NoNulls(undos[j])
  }

  lemma {:induction false} SpendingFits(id: Naming, v: View, vin: seq<OutPoint>)
    requires SpendInputs(v, vin).Some? && CoinsNamed(id, v)
    ensures InputsNamed(id, vin) && NoNulls(SpendInputs(v, vin).value.1)
    ensures CoinsNamed(id, SpendInputs(v, vin).value.0)
  {
    hide IsCoin, SpendOne, IsOutput;
    if vin != [] {
      var last := |vin| - 1;
      SpendingFits(id, v, vin[..last]);
      var v1 := SpendInputs(v, vin[..last]).value.0;
      SpentIsCoin(v1, vin[last]);
      forall o | IsCoin(SpendInputs(v, vin).value.0, o) ensures IsOutput(id, o) {
        SpendOneOnlySpends(v1, vin[last], o);
      }
    }
  }

  lemma SpentIsCoin(v: View, o: OutPoint)
    requires SpendOne(v, o).Some?
    ensures IsCoin(v, o) && !SpendOne(v, o).value.1.txout.IsNull()
  {
  }

  lemma {:induction false} ConnectFits(id: Naming, v: View, txs: seq<Tx>, height: int)
    requires ConnectTxs(v, txs, height).Some? && CoinsNamed(id, v) && Named(id, txs)
    ensures RecordFits(id, txs, ConnectTxs(v, txs, height).value.1)
  {
    hide CoinsNamed, InputsNamed, NoNulls, Put, FromTx, SpendInputs;
    if txs != [] {
      var init, tx := txs[..|txs| - 1], txs[|txs| - 1];
      ConnectFits(id, v, init, height);
      ConnectNamed(id, v, init, height);
      if tx.IsCoinBase() {
        NothingIsNull();
      } else {
        SpendingFits(id, ConnectTxs(v, init, height).value.0, tx.vin);
      }
    }
  }

  lemma NothingIsNull()
    ensures NoNulls([])
  {
  }

  // ----- disconnecting

  lemma RestoreKeeps(c: Coins, n: nat, undo: Undo, k: nat)
    requires Restore(c, n, undo).1 && c.IsAvailable(k)
    ensures Stored(Restore(c, n, undo).0).IsAvailable(k)
  {
    var vout := Restore(c, n, undo).0.vout;
    assert k < |vout| && !vout[k].IsNull();
  }

  lemma RestoreOnlyRestores(c: Coins, n: nat, undo: Undo, k: nat)
    requires Restore(c, n, undo).1 && Stored(Restore(c, n, undo).0).IsAvailable(k)
    ensures k == n || c.IsAvailable(k)
  {
  }

  lemma RestoreIsProper(c: Coins, n: nat, undo: Undo)
    requires ProperOrCleared(c) && Restore(c, n, undo).1 && !undo.txout.IsNull()
    ensures Proper(Stored(Restore(c, n, undo).0))
  {
    var c' := Restore(c, n, undo).0;
    assert c'.vout[n] == undo.txout;
    assert n < |Cleanup(c'.vout)|;
  }

  lemma RestoreOneFits(id: Naming, w: View, o: OutPoint, undo: Undo)
    requires ProperView(w) && CoinsNamed(id, w) && RestoreOne(w, o, undo).1 && !undo.txout.IsNull() && IsOutput(id, o)
    ensures ProperView(RestoreOne(w, o, undo).0) && CoinsNamed(id, RestoreOne(w, o, undo).0)
    ensures forall x :: IsCoin(w, x) ==> IsCoin(RestoreOne(w, o, undo).0, x)
  {
    hide Restore, Stored, IsOutput;
    var c := Get(w, o.hash);
    RestoreIsProper(c, o.n, undo);
    ProperIsNotCleared(Stored(Restore(c, o.n, undo).0));
    var w' := RestoreOne(w, o, undo).0;
    forall x | IsCoin(w, x) ensures IsCoin(w', x) {
      if x.hash == o.hash {
        RestoreKeeps(c, o.n, undo, x.n);
      }
    }
    forall x | IsCoin(w', x) ensures IsOutput(id, x) {
      if x.hash == o.hash {
        RestoreOnlyRestores(c, o.n, undo, x.n);
        assert x == o || IsCoin(w, x);
      } else {
        assert IsCoin(w, x);
      }
    }
  }

  lemma ProperIsNotCleared(c: Coins)
    requires Proper(c)
    ensures c != CLEARED
  {
  }

  lemma {:induction false} RestoreInputsFits(id: Naming, w: View, vin: seq<OutPoint>, undos: seq<Undo>)
    requires |undos| == |vin| && ProperView(w) && CoinsNamed(id, w)
    requires RestoreInputs(w, vin, undos).1 && NoNulls(undos) && InputsNamed(id, vin)
    ensures ProperView(RestoreInputs(w, vin, undos).0) && CoinsNamed(id, RestoreInputs(w, vin, undos).0)
    ensures forall x :: IsCoin(w, x) ==> IsCoin(RestoreInputs(w, vin, undos).0, x)
    decreases |vin|
  {
    hide IsCoin, RestoreOne, IsOutput, ProperView, CoinsNamed;
    if vin != [] {
      var last := |vin| - 1;
      RestoreOneFits(id, w, vin[last], undos[last]);
      RestoreInputsFits(id, RestoreOne(w, vin[last], undos[last]).0, vin[..last], undos[..last]);
    }
  }

  /** What is taken away with a transaction's coins are its own outputs. */
  lemma RemovedFits(id: Naming, w: View, tx: Tx)
    requires ProperView(w) && CoinsNamed(id, w) && id(tx.hash) == tx
    ensures ProperView(w - {tx.hash}) && CoinsNamed(id, w - {tx.hash})
    ensures forall o :: IsCoin(w, o) ==> IsCoin(w - {tx.hash}, o) || Makes(tx, o)
  {
    hide FromTx;
    forall o | IsCoin(w - {tx.hash}, o) ensures IsOutput(id, o) {
      assert IsCoin(w, o);
    }
    forall o | IsCoin(w, o) ensures IsCoin(w - {tx.hash}, o) || Makes(tx, o) {
      assert IsOutput(id, o);
    }
  }

  lemma DisconnectTxFits(id: Naming, w: View, tx: Tx, undos: seq<Undo>, height: int, first: bool)
    requires ProperView(w) && CoinsNamed(id, w) && id(tx.hash) == tx && (!first ==> |undos| == |tx.vin|)
    requires DisconnectTx(w, tx, undos, height, first).1
    requires !first ==> NoNulls(undos) && InputsNamed(id, tx.vin)
    ensures var w' := DisconnectTx(w, tx, undos, height, first).0;
            && ProperView(w') && CoinsNamed(id, w')
            && forall o :: IsCoin(w, o) ==> IsCoin(w', o) || Makes(tx, o)
  {
    hide FromTx, ClearUnspendable, SameCoins, RestoreInputs, ProperView, CoinsNamed, IsCoin, Makes, NoNulls,
      InputsNamed;
    RemovedFits(id, w, tx);
    if !first {
      RestoreInputsFits(id, w - {tx.hash}, tx.vin, undos);
    }
  }

  /** After a rollback that is reported clean, whether or not it is exact: what was unspent still
      is, or a transaction of the block makes it. */
  lemma {:induction false} DisconnectFits(id: Naming, w: View, txs: seq<Tx>, undos: seq<seq<Undo>>, height: int)
    requires |undos| == if txs == [] then 0 else |txs| - 1
    requires ProperView(w) && CoinsNamed(id, w) && RecordFits(id, txs, undos) && WellFormed(txs)
    requires DisconnectTxs(w, txs, undos, height).Some? && DisconnectTxs(w, txs, undos, height).value.1
    ensures var w' := DisconnectTxs(w, txs, undos, height).value.0;
            && ProperView(w') && CoinsNamed(id, w')
            && forall o :: IsCoin(w, o) ==> IsCoin(w', o) || Waits(txs, 0, o)
    decreases |txs|
  {
    hide DisconnectTx, ProperView, CoinsNamed, IsCoin, Makes, NoNulls, InputsNamed;
    if txs != [] {
      var last := |txs| - 1;
      var undo := if last == 0 then [] else undos[last - 1];
      var w1 := DisconnectTx(w, txs[last], undo, height, last == 0).0;
      var init, before := txs[..last], if last == 0 then [] else undos[..last - 1];
      DisconnectTxFits(id, w, txs[last], undo, height, last == 0);
      DisconnectFits(id, w1, init, before, height);
      var w' := DisconnectTxs(w, txs, undos, height).value.0;
      forall o | IsCoin(w, o) ensures IsCoin(w', o) || Waits(txs, 0, o) {
        if Makes(txs[last], o) {
        } else if !IsCoin(w', o) {
          var i :| 0 <= i < |init| && Makes(init[i], o);
          assert Makes(txs[i], o);
        }
      }
    }
  }
}
