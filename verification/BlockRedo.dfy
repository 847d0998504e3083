/** The other way around: a block that was rolled back cleanly can be connected again, and leads
    back to the coin set it was taken from (src/core/main.cpp, DisconnectBlock and UpdateCoins). */
module BlockRedo {
  import opened Common
  import opened Transactions
  import opened CoinSet
  import opened BlockUndo

  /** An undo record as UpdateCoins writes it: of an output that was there, and with the height,
      version and coinbase flag only if it was the last one. */
  predicate IsWritten(u: Undo) {
    !u.txout.IsNull() && !u.txout.script.unspendable && (u.height == 0 ==> !u.coinBase && u.version == 0)
  }

  /** No coin is an output that cannot be spent. */
  ghost predicate OnlySpendable(v: View) {
    forall h :: h in v ==> AllSpendable(v[h].vout)
  }

  predicate AllSpendable(vout: seq<TxOut>) {
    forall i :: 0 <= i < |vout| ==> !vout[i].script.unspendable
  }

  /** When a rollback finds an output as it expects: nothing of the transaction is there, or
      something is but not this output, as the undo record says. */
  lemma RestoreIsCleanIff(v: View, o: OutPoint, undo: Undo)
    ensures var c := Get(v, o.hash);
            RestoreOne(v, o, undo).1 <==>
              (undo.height != 0 <==> forall n :: !c.IsAvailable(n)) && !c.IsAvailable(o.n)
  {
    var c := Get(v, o.hash);
    assert c.IsPruned() <==> forall n :: !c.IsAvailable(n) by {
      if !c.IsPruned() {
        var i :| 0 <= i < |c.vout| && !c.vout[i].IsNull();
        assert c.IsAvailable(i);
      }
    }
  }

  // ----- one output

  lemma {:induction false} NullsGo(vout: seq<TxOut>, k: nat)
    requires k <= |vout| && (k > 0 ==> !vout[k - 1].IsNull())
    requires forall i :: k <= i < |vout| ==> vout[i].IsNull()
    ensures TrimmedLength(vout) == k
  {
  }

  /** Taking out what was just put in. */
  lemma TakenOutAgain(vout: seq<TxOut>, n: nat, out: TxOut)
    requires Trimmed(vout) && !out.IsNull() && (n < |vout| ==> vout[n].IsNull())
    ensures var filled := Widen(vout, n + 1)[n := out];
            && |filled| > n && filled[n] == out && Trimmed(filled) && Cleanup(filled[n := NULL_OUT]) == vout
            && forall i :: 0 <= i < |filled| && i != n ==> filled[i] == if i < |vout| then vout[i] else NULL_OUT
  {
    var filled := Widen(vout, n + 1)[n := out];
    var holed := filled[n := NULL_OUT];
    assert forall i :: |vout| <= i < |holed| ==> holed[i] == NULL_OUT;
    NullsGo(holed, |vout|);
    assert holed[..|vout|] == vout;
  }

  /** Spending undoes a clean restore, and writes the same record. */
  lemma SpendUndoesRestore(c: Coins, n: nat, undo: Undo)
    requires ProperOrCleared(c) && IsWritten(undo) && Restore(c, n, undo).1
    ensures var c' := Restore(c, n, undo).0;
            && Proper(c') && Stored(c') == c'
            && Spend(c', n).Some? && Stored(Spend(c', n).value.0) == c && Spend(c', n).value.1 == undo
            && (AllSpendable(c.vout) ==> AllSpendable(c'.vout))
  {
    hide Cleanup, Widen;
    if undo.height != 0 {
      NothingThere(c);
      TakenOutAgain([], n, undo.txout);
    } else {
      TakenOutAgain(c.vout, n, undo.txout);
    }
    TrimmedStays(Restore(c, n, undo).0.vout);
    TrimmedStays(c.vout);
  }

  lemma NothingThere(c: Coins)
    requires ProperOrCleared(c) && c.IsPruned()
    ensures c == CLEARED
  {
  }

  lemma RedoOne(v: View, o: OutPoint, undo: Undo)
    requires ProperView(v) && OnlySpendable(v) && IsWritten(undo) && RestoreOne(v, o, undo).1
    ensures var v' := RestoreOne(v, o, undo).0;
            ProperView(v') && OnlySpendable(v') && SpendOne(v', o) == Some((v, undo))
  {
    hide Restore, Spend, Stored;
    var c := Get(v, o.hash);
    SpendUndoesRestore(c, o.n, undo);
    var c' := Restore(c, o.n, undo).0;
    assert Get(RestoreOne(v, o, undo).0, o.hash) == c';
    PutBoth(v, o.hash, c', Spend(c', o.n).value.0);
  }

  lemma PutBoth(v: View, h: Hash, c1: Coins, c2: Coins)
    requires ProperView(v) && Stored(c2) == Get(v, h)
    ensures Put(Put(v, h, c1), h, c2) == v
  {
    hide Stored;
  }

  predicate AreWritten(undos: seq<Undo>) {
    forall i :: 0 <= i < |undos| ==> IsWritten(undos[i])
  }

  lemma {:induction false} RedoInputs(v: View, vin: seq<OutPoint>, undos: seq<Undo>)
    requires |undos| == |vin| && AreWritten(undos)
    requires ProperView(v) && OnlySpendable(v) && RestoreInputs(v, vin, undos).1
    ensures var v' := RestoreInputs(v, vin, undos).0;
            ProperView(v') && OnlySpendable(v') && SpendInputs(v', vin) == Some((v, undos))
    decreases |vin|
  {
    hide ProperView, OnlySpendable, RestoreOne, SpendOne, IsWritten;
    if vin != [] {
      var last := |vin| - 1;
      RedoOne(v, vin[last], undos[last]);
      RedoInputs(RestoreOne(v, vin[last], undos[last]).0, vin[..last], undos[..last]);
      assert undos[..last] + [undos[last]] == undos;
    }
  }

  // ----- one transaction

  /** The coins of a transaction that are found clean are those it makes. */
  lemma FoundIsMade(v: View, tx: Tx, height: int)
    requires ProperView(v) && OnlySpendable(v) && ValuesAreValid(tx) && height != 0 && tx.version >= 0
    requires SameCoins(Get(v, tx.hash).(vout := ClearUnspendable(Get(v, tx.hash).vout)), FromTx(tx, height))
    ensures Put(v, tx.hash, FromTx(tx, height)) == v
  {
    var outs, block := Get(v, tx.hash), FromTx(tx, height);
    CreatedCoins(tx, height);
    assert WithoutUnspendable(outs.vout) == outs.vout;
    TrimmedStays(outs.vout);
    if block.IsPruned() {
      LastIsThere(block.vout);
      LastIsThere(outs.vout);
    }
  }

  lemma LastIsThere(vout: seq<TxOut>)
    requires Trimmed(vout) && forall i :: 0 <= i < |vout| ==> vout[i].IsNull()
    ensures vout == []
  {
  }

  lemma RedoTx(v: View, tx: Tx, undos: seq<Undo>, height: int)
    requires ProperView(v) && OnlySpendable(v) && ValuesAreValid(tx) && height != 0 && tx.version >= 0
    requires |undos| == (if tx.IsCoinBase() then 0 else |tx.vin|) && AreWritten(undos)
    requires DisconnectTx(v, tx, undos, height, tx.IsCoinBase()).1
    ensures var v' := DisconnectTx(v, tx, undos, height, tx.IsCoinBase()).0;
            ProperView(v') && OnlySpendable(v') && UpdateCoins(v', tx, height) == Some((v, undos))
  {
    hide RestoreInputs, SpendInputs, IsWritten, Stored, FromTx, SameCoins, ClearUnspendable;
    var removed := v - {tx.hash};
    VersionStays(v, tx, height);
    FoundIsMade(v, tx, height);
    PutTwice(v, tx.hash, FromTx(tx, height));
    if !tx.IsCoinBase() {
      RedoInputs(removed, tx.vin, undos);
    }
  }

  lemma VersionStays(v: View, tx: Tx, height: int)
    requires tx.version >= 0
    ensures var outs, block := Get(v, tx.hash), FromTx(tx, height);
            outs.(vout := ClearUnspendable(outs.vout),
                  version := if block.version < 0 then block.version else outs.version)
            == outs.(vout := ClearUnspendable(outs.vout))
  {
  }

  lemma PutTwice(v: View, h: Hash, c: Coins)
    ensures Put(v - {h}, h, c) == Put(v, h, c)
  {
  }

  // ----- the block

  predicate AllWritten(undos: seq<seq<Undo>>) {
    forall k :: 0 <= k < |undos| ==> AreWritten(undos[k])
  }

  /** If the rollback of a block goes through and is reported clean, whatever undo records were on
      disk, then the block can be connected to what it leaves, and that gives the coin set before
      and the same undo records. */
  lemma {:induction false} CleanRollbackCanBeRedone(v: View, txs: seq<Tx>, undos: seq<seq<Undo>>, height: int)
    requires ProperView(v) && OnlySpendable(v) && WellFormed(txs) && height != 0
    requires forall i :: 0 <= i < |txs| ==> txs[i].version >= 0
    requires |undos| == (if txs == [] then 0 else |txs| - 1) && AllWritten(undos)
    requires DisconnectTxs(v, txs, undos, height).Some? && DisconnectTxs(v, txs, undos, height).value.1
    ensures var v' := DisconnectTxs(v, txs, undos, height).value.0;
            ProperView(v') && OnlySpendable(v') && ConnectTxs(v', txs, height) == Some((v, undos))
    decreases |txs|
  {
    hide ProperView, OnlySpendable, DisconnectTx, UpdateCoins, AreWritten, ValuesAreValid;
    if txs != [] {
      var last := |txs| - 1;
      var undo := if last == 0 then [] else undos[last - 1];
      var rest := if last == 0 then [] else undos[..last - 1];
      NothingWritten();
      var v1 := DisconnectTx(v, txs[last], undo, height, last == 0).0;
      RedoTx(v, txs[last], undo, height);
      CleanRollbackCanBeRedone(v1, txs[..last], rest, height);
      assert last > 0 ==> rest + [undo] == undos;
    }
  }

  lemma NothingWritten()
    ensures AreWritten([])
  {
  }

  /** The records that ConnectBlock writes are such records, and its coins can be spent. */
  lemma SpentIsWritten(v: View, o: OutPoint)
    requires ProperView(v) && OnlySpendable(v) && SpendOne(v, o).Some?
    ensures IsWritten(SpendOne(v, o).value.1) && OnlySpendable(SpendOne(v, o).value.0)
  {
  }

  lemma {:induction false} InputsAreWritten(v: View, vin: seq<OutPoint>)
    requires ProperView(v) && OnlySpendable(v) && SpendInputs(v, vin).Some?
    ensures AreWritten(SpendInputs(v, vin).value.1) && OnlySpendable(SpendInputs(v, vin).value.0)
    ensures ProperView(SpendInputs(v, vin).value.0)
  {
    hide ProperView, OnlySpendable, SpendOne, IsWritten;
    if vin != [] {
      var last := |vin| - 1;
      InputsAreWritten(v, vin[..last]);
      SpentIsWritten(SpendInputs(v, vin[..last]).value.0, vin[last]);
      RestoreInputsUndoes(v, vin);
    }
  }

  lemma UpdateIsWritten(v: View, tx: Tx, height: int)
    requires ProperView(v) && OnlySpendable(v) && UpdateCoins(v, tx, height).Some?
    requires ValuesAreValid(tx) && height != 0
    ensures AreWritten(UpdateCoins(v, tx, height).value.1) && OnlySpendable(UpdateCoins(v, tx, height).value.0)
  {
    hide SpendInputs, IsWritten;
    CreatedCoins(tx, height);
    if !tx.IsCoinBase() {
      InputsAreWritten(v, tx.vin);
    }
  }

  /** So the requirements hold for every block that was connected. */
  lemma {:induction false} ConnectedIsWritten(v: View, txs: seq<Tx>, height: int)
    requires ProperView(v) && OnlySpendable(v) && ConnectTxs(v, txs, height).Some?
    requires WellFormed(txs) && height != 0
    ensures AllWritten(ConnectTxs(v, txs, height).value.1)
    ensures ProperView(ConnectTxs(v, txs, height).value.0) && OnlySpendable(ConnectTxs(v, txs, height).value.0)
  {
    hide ProperView, OnlySpendable, UpdateCoins, AreWritten, ValuesAreValid;
    if txs != [] {
      var last := |txs| - 1;
      ConnectedIsWritten(v, txs[..last], height);
      ConnectTxsProper(v, txs, height);
      UpdateIsWritten(ConnectTxs(v, txs[..last], height).value.0, txs[last], height);
    }
  }
}
