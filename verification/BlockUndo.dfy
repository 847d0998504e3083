/** Connecting and disconnecting the transactions of a block (src/core/main.cpp), and when
    the second undoes the first. */
module BlockUndo {
  import opened Common
  import opened Transactions
  import opened CoinSet

  /** CheckTransaction refuses negative output values. */
  predicate ValuesAreValid(tx: Tx) {
    forall i :: 0 <= i < |tx.vout| ==> tx.vout[i].value >= 0
  }

  /** What CheckBlock asks of the transactions: the first and only the first is a coinbase. */
  predicate WellFormed(txs: seq<Tx>) {
    forall i :: 0 <= i < |txs| ==> (txs[i].IsCoinBase() <==> i == 0) && ValuesAreValid(txs[i])
  }

  /** A block with its undo records, as kept on disk. */
  datatype BlockRecord = BlockRecord(txs: seq<Tx>, undos: seq<seq<Undo>>)

  /** The loop of ConnectBlock over the coin set. The undo records of the coinbase are not
      kept: there is one list for each later transaction. */
  function ConnectTxs(v: View, txs: seq<Tx>, height: int): (r: Option<(View, seq<seq<Undo>>)>)
    ensures r.Some? ==> |r.value.1| == if txs == [] then 0 else |txs| - 1
  {
    if txs == [] then Some((v, []))
    else
      var last := |txs| - 1;
      match ConnectTxs(v, txs[..last], height)
      case None => None
      case Some((v1, undos)) =>
        match UpdateCoins(v1, txs[last], height)
        case None => None
        case Some((v2, undo)) => Some((v2, if last == 0 then [] else undos + [undo]))
  }

  /** The loop of DisconnectBlock, from the last transaction to the first. None is the
      error return when a transaction has not as many undo records as inputs. */
  function DisconnectTxs(v: View, txs: seq<Tx>, undos: seq<seq<Undo>>, height: int): Option<(View, bool)>
    requires |undos| == if txs == [] then 0 else |txs| - 1
    decreases |txs|
  {
    if txs == [] then Some((v, true))
    else
      var last := |txs| - 1;
      var undo := if last == 0 then [] else undos[last - 1];
      if last > 0 && |undo| != |txs[last].vin| then None
      else
        var (v1, clean1) := DisconnectTx(v, txs[last], undo, height, last == 0);
        match DisconnectTxs(v1, txs[..last], if last == 0 then [] else undos[..last - 1], height)
        case None => None
        case Some((v2, clean2)) => Some((v2, clean1 && clean2))
  }

  /** DisconnectBlock on a view: None is one of its two error returns. */
  function DisconnectBlock(v: View, txs: seq<Tx>, undos: seq<seq<Undo>>, height: int): Option<(View, bool)> {
    if |undos| + 1 != |txs| then None else DisconnectTxs(v, txs, undos, height)
  }

  /** `tx` replaces coins that are still there when its own inputs have been spent. */
  predicate Replaces(v: View, tx: Tx) {
    SpendPhase(v, tx).Some? && tx.hash in SpendPhase(v, tx).value.0
  }

  /** Some transaction does: what the rule of BIP 30, which is compiled out, would refuse. */
  predicate Overwrites(v: View, txs: seq<Tx>, height: int) {
    txs != [] &&
    var init, last := txs[..|txs| - 1], txs[|txs| - 1];
    || Overwrites(v, init, height)
    || (ConnectTxs(v, init, height).Some? && Replaces(ConnectTxs(v, init, height).value.0, last))
  }

  // ----- one transaction

  lemma CreatedCoins(tx: Tx, height: int)
    requires ValuesAreValid(tx) && height != 0
    ensures var c := FromTx(tx, height);
            && Trimmed(c.vout)
            && ClearUnspendable(c.vout) == c.vout
            && Stored(c) == (if c.vout == [] then CLEARED else c)
  {
    var c := FromTx(tx, height);
    TrimmedStays(c.vout);
    assert WithoutUnspendable(c.vout) == c.vout;
  }

  lemma SpendPhaseProper(v: View, tx: Tx)
    requires ProperView(v) && SpendPhase(v, tx).Some?
    ensures ProperView(SpendPhase(v, tx).value.0)
  {
    if !tx.IsCoinBase() {
      RestoreInputsUndoes(v, tx.vin);
    }
  }

  lemma UpdateCoinsProper(v: View, tx: Tx, height: int)
    requires ProperView(v) && UpdateCoins(v, tx, height).Some?
    requires ValuesAreValid(tx) && height != 0
    ensures ProperView(UpdateCoins(v, tx, height).value.0)
  {
    SpendPhaseProper(v, tx);
    CreatedCoins(tx, height);
  }

  lemma {:induction false} ConnectTxsProper(v: View, txs: seq<Tx>, height: int)
    requires ProperView(v) && ConnectTxs(v, txs, height).Some?
    requires WellFormed(txs) && height != 0
    ensures ProperView(ConnectTxs(v, txs, height).value.0)
  {
    if txs != [] {
      var last := |txs| - 1;
      ConnectTxsProper(v, txs[..last], height);
      UpdateCoinsProper(ConnectTxs(v, txs[..last], height).value.0, txs[last], height);
    }
  }

  /** The outputs a transaction just made are recognised. */
  lemma CreatedIsFound(v1: View, tx: Tx, height: int)
    requires ValuesAreValid(tx) && height != 0
    ensures var block := FromTx(tx, height);
            var outs := Get(Put(v1, tx.hash, block), tx.hash);
            SameCoins(outs.(vout := ClearUnspendable(outs.vout),
                            version := if block.version < 0 then block.version else outs.version), block)
  {
    CreatedCoins(tx, height);
  }

  lemma DisconnectTxUndoes(v: View, tx: Tx, height: int)
    requires ProperView(v) && UpdateCoins(v, tx, height).Some?
    requires ValuesAreValid(tx) && height != 0
    requires !Replaces(v, tx)
    ensures var (v', undos) := UpdateCoins(v, tx, height).value;
            DisconnectTx(v', tx, undos, height, tx.IsCoinBase()) == (v, true)
  {
    var (v1, undos) := SpendPhase(v, tx).value;
    var v' := UpdateCoins(v, tx, height).value.0;
    CreatedIsFound(v1, tx, height);
    assert v' - {tx.hash} == v1;
    if !tx.IsCoinBase() {
      RestoreInputsUndoes(v, tx.vin);
    }
  }

  // ----- a whole block

  lemma {:induction false} DisconnectUndoes(v: View, txs: seq<Tx>, height: int)
    requires ProperView(v) && ConnectTxs(v, txs, height).Some?
    requires WellFormed(txs) && height != 0
    requires !Overwrites(v, txs, height)
    ensures var (v', undos) := ConnectTxs(v, txs, height).value;
            DisconnectTxs(v', txs, undos, height) == Some((v, true))
  {
    if txs != [] {
      var init, tx := txs[..|txs| - 1], txs[|txs| - 1];
      DisconnectUndoes(v, init, height);
      ConnectTxsProper(v, init, height);
      DisconnectTxUndoes(ConnectTxs(v, init, height).value.0, tx, height);
      DisconnectStep(v, txs, height, ConnectTxs(v, txs, height).value.0);
    }
  }

  // ----- overwritten coins do not come back

  lemma RestoreOneLost(w: View, o: OutPoint, undo: Undo, h: Hash)
    requires h !in w && (o.hash == h ==> undo.height == 0)
    ensures o.hash == h ==> !RestoreOne(w, o, undo).1
    ensures o.hash != h ==> h !in RestoreOne(w, o, undo).0
  {
  }

  /** Coins that are gone stay gone, or are noticed, when no undo record brings them. */
  lemma {:induction false} RestoreInputsLost(w: View, vin: seq<OutPoint>, undos: seq<Undo>, h: Hash)
    requires |undos| == |vin| && h !in w
    requires forall i :: 0 <= i < |vin| && vin[i].hash == h ==> undos[i].height == 0
    ensures var (w', clean) := RestoreInputs(w, vin, undos);
            clean ==> h !in w'
    decreases |vin|
  {
    hide RestoreOne;
    if vin != [] {
      var last := |vin| - 1;
      RestoreOneLost(w, vin[last], undos[last], h);
      if vin[last].hash != h {
        RestoreInputsLost(RestoreOne(w, vin[last], undos[last]).0, vin[..last], undos[..last], h);
      }
    }
  }

  lemma SpendOneSurvivor(v: View, o: OutPoint, h: Hash)
    requires ProperView(v) && SpendOne(v, o).Some? && h in SpendOne(v, o).value.0
    ensures h in v && (o.hash == h ==> SpendOne(v, o).value.1.height == 0)
  {
    RestoreOneUndoes(v, o);
  }

  /** Coins that outlive the spending leave only undo records without a height. */
  lemma {:induction false} SurvivorsLeaveNoHeight(v: View, vin: seq<OutPoint>, h: Hash)
    requires ProperView(v) && SpendInputs(v, vin).Some?
    requires h in SpendInputs(v, vin).value.0
    ensures h in v
    ensures var undos := SpendInputs(v, vin).value.1;
            forall i :: 0 <= i < |vin| && vin[i].hash == h ==> undos[i].height == 0
  {
    if vin != [] {
      var last := |vin| - 1;
      RestoreInputsUndoes(v, vin[..last]);
      SpendOneSurvivor(SpendInputs(v, vin[..last]).value.0, vin[last], h);
      SurvivorsLeaveNoHeight(v, vin[..last], h);
    }
  }

  /** Coins that `tx` made are missing: DisconnectBlock notices. */
  lemma MissingIsNoticed(v: View, tx: Tx, height: int, w: View)
    requires ValuesAreValid(tx) && height != 0
    requires tx.hash in Put(v, tx.hash, FromTx(tx, height)) && tx.hash !in w
    ensures var c, block := CLEARED, FromTx(tx, height);
            !SameCoins(c.(vout := ClearUnspendable(c.vout),
                          version := if block.version < 0 then block.version else c.version), block)
  {
    CreatedCoins(tx, height);
    var c := FromTx(tx, height);
    assert c.IsAvailable(|c.vout| - 1);
  }

  /** Transaction `tx` was connected to `v` and is now disconnected from some other view. If
      that view has lost coins that `v` would have got back, or `tx` itself replaced coins,
      then the loss is noticed or goes on. */
  lemma DisconnectTxLoses(v: View, tx: Tx, height: int, w: View, h: Hash)
    requires ProperView(v) && UpdateCoins(v, tx, height).Some?
    requires ValuesAreValid(tx) && height != 0
    requires || (h in UpdateCoins(v, tx, height).value.0 && h !in w)
             || (Replaces(v, tx) && h == tx.hash)
    ensures var undos := UpdateCoins(v, tx, height).value.1;
            var (w', clean) := DisconnectTx(w, tx, undos, height, tx.IsCoinBase());
            clean ==> h in v && h !in w'
  {
    var (v1, undos) := SpendPhase(v, tx).value;
    if h !in v1 {
      MissingIsNoticed(v1, tx, height, w);
    } else if !tx.IsCoinBase() {
      SurvivorsLeaveNoHeight(v, tx.vin, h);
      RestoreInputsLost(w - {tx.hash}, tx.vin, undos, h);
    }
  }

  /** One turn of the loop in DisconnectBlock, with the undo records that connecting made. */
  lemma DisconnectStep(v: View, txs: seq<Tx>, height: int, w: View)
    requires txs != [] && ConnectTxs(v, txs, height).Some? && WellFormed(txs)
    ensures var init, tx := txs[..|txs| - 1], txs[|txs| - 1];
            var (v1, undos1) := ConnectTxs(v, init, height).value;
            var undo := UpdateCoins(v1, tx, height).value.1;
            var (w1, clean1) := DisconnectTx(w, tx, undo, height, tx.IsCoinBase());
            var rest := DisconnectTxs(w1, init, undos1, height);
            DisconnectTxs(w, txs, ConnectTxs(v, txs, height).value.1, height)
            == if rest.None? then None else Some((rest.value.0, clean1 && rest.value.1))
  {
    var last := |txs| - 1;
    var (v1, undos1) := ConnectTxs(v, txs[..last], height).value;
    var undo := UpdateCoins(v1, txs[last], height).value.1;
    var undos := ConnectTxs(v, txs, height).value.1;
    assert last > 0 ==> undos[..last - 1] == undos1 && undos[last - 1] == undo;
  }

  /** The undo records of a block always have the sizes DisconnectBlock checks for. */
  lemma {:induction false} UndoFits(v: View, txs: seq<Tx>, height: int, w: View)
    requires ConnectTxs(v, txs, height).Some? && WellFormed(txs)
    ensures DisconnectTxs(w, txs, ConnectTxs(v, txs, height).value.1, height).Some?
  {
    if txs != [] {
      var init, tx := txs[..|txs| - 1], txs[|txs| - 1];
      var v1 := ConnectTxs(v, init, height).value.0;
      var undo := UpdateCoins(v1, tx, height).value.1;
      DisconnectStep(v, txs, height, w);
      UndoFits(v, init, height, DisconnectTx(w, tx, undo, height, tx.IsCoinBase()).0);
    }
  }

  lemma {:induction false} LossGoesOn(v: View, txs: seq<Tx>, height: int, w: View, h: Hash)
    requires ProperView(v) && ConnectTxs(v, txs, height).Some?
    requires WellFormed(txs) && height != 0
    requires h in ConnectTxs(v, txs, height).value.0 && h !in w
    ensures var d := DisconnectTxs(w, txs, ConnectTxs(v, txs, height).value.1, height);
            d.Some? && d.value.1 ==> h in v && h !in d.value.0
  {
    if txs != [] {
      var init, tx := txs[..|txs| - 1], txs[|txs| - 1];
      var v1 := ConnectTxs(v, init, height).value.0;
      var undo := UpdateCoins(v1, tx, height).value.1;
      ConnectTxsProper(v, init, height);
      DisconnectStep(v, txs, height, w);
      DisconnectTxLoses(v1, tx, height, w, h);
      var (w1, clean1) := DisconnectTx(w, tx, undo, height, tx.IsCoinBase());
      if clean1 {
        LossGoesOn(v, init, height, w1, h);
      }
    }
  }

  lemma {:induction false} OverwriteLoses(v: View, txs: seq<Tx>, height: int, w: View) returns (h: Hash)
    requires ProperView(v) && ConnectTxs(v, txs, height).Some?
    requires WellFormed(txs) && height != 0
    requires Overwrites(v, txs, height)
    ensures var d := DisconnectTxs(w, txs, ConnectTxs(v, txs, height).value.1, height);
            d.Some? && d.value.1 ==> h in v && h !in d.value.0
  {
    var init, tx := txs[..|txs| - 1], txs[|txs| - 1];
    var v1 := ConnectTxs(v, init, height).value.0;
    var undo := UpdateCoins(v1, tx, height).value.1;
    ConnectTxsProper(v, init, height);
    DisconnectStep(v, txs, height, w);
    var (w1, clean1) := DisconnectTx(w, tx, undo, height, tx.IsCoinBase());
    if Overwrites(v, init, height) {
      h := OverwriteLoses(v, init, height, w1);
    } else {
      h := tx.hash;
      DisconnectTxLoses(v1, tx, height, w, h);
      if clean1 {
        LossGoesOn(v, init, height, w1, h);
      }
    }
  }

  /** Disconnecting a block right after connecting it gives back exactly the earlier coin
      set and reports it clean, if and only if no transaction of the block replaced coins
      that were still there. */
  lemma UndoIsExactUnlessOverwritten(v: View, txs: seq<Tx>, height: int)
    requires ProperView(v) && txs != [] && ConnectTxs(v, txs, height).Some?
    requires WellFormed(txs) && height != 0
    ensures var (v', undos) := ConnectTxs(v, txs, height).value;
            DisconnectBlock(v', txs, undos, height) == Some((v, true)) <==> !Overwrites(v, txs, height)
  {
    if Overwrites(v, txs, height) {
      var h := OverwriteLoses(v, txs, height, ConnectTxs(v, txs, height).value.0);
    } else {
      DisconnectUndoes(v, txs, height);
    }
  }

  lemma {:induction false} ConnectedCoinsComeFrom(v: View, txs: seq<Tx>, height: int, h: Hash)
    requires ProperView(v) && ConnectTxs(v, txs, height).Some?
    requires WellFormed(txs) && height != 0
    requires h in ConnectTxs(v, txs, height).value.0
    ensures h in v || exists i :: 0 <= i < |txs| && txs[i].hash == h
  {
    if txs != [] {
      var init, tx := txs[..|txs| - 1], txs[|txs| - 1];
      var v1 := ConnectTxs(v, init, height).value.0;
      ConnectTxsProper(v, init, height);
      if h != tx.hash {
        SpentCoinsWereThere(v1, tx, h);
        ConnectedCoinsComeFrom(v, init, height, h);
        assert h in v || exists i :: 0 <= i < |init| && init[i].hash == h;
      }
    }
  }

  lemma SpentCoinsWereThere(v: View, tx: Tx, h: Hash)
    requires ProperView(v) && SpendPhase(v, tx).Some? && h in SpendPhase(v, tx).value.0
    ensures h in v
  {
    if !tx.IsCoinBase() {
      SurvivorsLeaveNoHeight(v, tx.vin, h);
    }
  }

  /** Fresh txids are enough: none in the set, no two alike. */
  lemma {:induction false} FreshTxidsDoNotOverwrite(v: View, txs: seq<Tx>, height: int)
    requires ProperView(v) && ConnectTxs(v, txs, height).Some?
    requires WellFormed(txs) && height != 0
    requires forall i :: 0 <= i < |txs| ==> txs[i].hash !in v
    requires forall i, j :: 0 <= i < j < |txs| ==> txs[i].hash != txs[j].hash
    ensures !Overwrites(v, txs, height)
  {
    if txs != [] {
      var init, tx := txs[..|txs| - 1], txs[|txs| - 1];
      FreshTxidsDoNotOverwrite(v, init, height);
      ConnectTxsProper(v, init, height);
      var v1 := ConnectTxs(v, init, height).value.0;
      if Replaces(v1, tx) {
        SpentCoinsWereThere(v1, tx, tx.hash);
        ConnectedCoinsComeFrom(v, init, height, tx.hash);
        assert false;
      }
    }
  }

  /** The condition is needed: a second coinbase with the txid of the first one destroys the
      first one's output for good. */
  lemma RepeatedCoinbaseIsNotUndone()
    ensures var script := Script(1, None, false);
            var tx := Tx(7, 1, [NULL_OUTPOINT], [TxOut(50, script)]);
            var v: View := map[7 := Coins(true, [TxOut(50, script)], 1, 1)];
            && ProperView(v) && WellFormed([tx]) && ConnectTxs(v, [tx], 2).Some?
            && DisconnectBlock(ConnectTxs(v, [tx], 2).value.0, [tx], [], 2) == Some((map[], true))
  {
    var script := Script(1, None, false);
    var tx := Tx(7, 1, [NULL_OUTPOINT], [TxOut(50, script)]);
    var v: View := map[7 := Coins(true, [TxOut(50, script)], 1, 1)];
    assert [tx][..0] == [] && ConnectTxs(v, [], 2) == Some((v, []));
    assert tx.IsCoinBase() && SpendPhase(v, tx) == Some((v, []));
    CreatedCoins(tx, 2);
    CreatedIsFound(v, tx, 2);
    var v' := UpdateCoins(v, tx, 2).value.0;
    assert ConnectTxs(v, [tx], 2) == Some((v', []));
    assert v' - {7} == map[];
    assert DisconnectTxs(map[], [], [], 2) == Some((map[], true));
  }
}
