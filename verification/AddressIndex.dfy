/** The two address indexes that ConnectBlock and DisconnectBlock of src/core/main.cpp keep
    beside the coin set. The vectors of changes that those functions collect are applied to
    the database in order, so each change is applied here where it is collected. */
module AddressIndex {
  import opened Common
  import opened Transactions
  import opened CoinSet
  import opened BlockUndo

  datatype UnspentKey = UnspentKey(address: Address, out: OutPoint)
  datatype UnspentValue = UnspentValue(value: int, script: Script, height: int)

  /** What the address has unspent. */
  type UnspentIndex = map<UnspentKey, UnspentValue>

  // ----- the outputs of a view

  function OutputAt(v: View, o: OutPoint): Option<TxOut> {
    if Get(v, o.hash).IsAvailable(o.n) then Some(Get(v, o.hash).vout[o.n]) else None
  }

  lemma SpendOneOutputs(v: View, o: OutPoint, p: OutPoint)
    requires ProperView(v) && SpendOne(v, o).Some?
    ensures var (v', undo) := SpendOne(v, o).value;
            && OutputAt(v', p) == (if p == o then None else OutputAt(v, p))
            && OutputAt(v, o) == Some(undo.txout)
  {
    if p == o {
      var c := Get(v, o.hash);
      HoleRefilled(c.vout, o.n);
      TrimmedStays(Cleanup(c.vout[o.n := NULL_OUT]));
    } else {
      SpendOneElsewhere(v, o, p);
    }
  }

  lemma CreatedOutputs(v: View, tx: Tx, height: int, p: OutPoint)
    requires ValuesAreValid(tx) && height != 0
    ensures OutputAt(Put(v, tx.hash, FromTx(tx, height)), p)
            == if p.hash != tx.hash then OutputAt(v, p)
               else if p.n < |tx.vout| && !tx.vout[p.n].script.unspendable then Some(tx.vout[p.n])
               else None
  {
    CreatedCoins(tx, height);
    var kept := WithoutUnspendable(tx.vout);
    assert FromTx(tx, height).vout == kept[..TrimmedLength(kept)];
  }

  // ----- the unspent index

  function Erase(idx: UnspentIndex, out: TxOut, o: OutPoint): UnspentIndex {
    match out.script.address
    case None => idx
    case Some(a) => idx - {UnspentKey(a, o)}
  }

  function Write(idx: UnspentIndex, out: TxOut, o: OutPoint, height: int): UnspentIndex {
    match out.script.address
    case None => idx
    case Some(a) => idx[UnspentKey(a, o) := UnspentValue(out.value, out.script, height)]
  }

  /** ConnectBlock: the outputs that the inputs spend leave the index. */
  function EraseSpent(idx: UnspentIndex, v: View, vin: seq<OutPoint>): UnspentIndex {
    if vin == [] then idx
    else
      var last := |vin| - 1;
      var rest := EraseSpent(idx, v, vin[..last]);
      match OutputAt(v, vin[last])
      case None => rest
      case Some(out) => Erase(rest, out, vin[last])
  }

  /** ConnectBlock: the first `k` outputs enter the index. */
  function WriteOutputs(idx: UnspentIndex, tx: Tx, k: nat, height: int): UnspentIndex
    requires k <= |tx.vout|
  {
    if k == 0 then idx
    else Write(WriteOutputs(idx, tx, k - 1, height), tx.vout[k - 1], OutPoint(tx.hash, k - 1), height)
  }

  function ConnectIndex(idx: UnspentIndex, v: View, tx: Tx, height: int): UnspentIndex {
    WriteOutputs(if tx.IsCoinBase() then idx else EraseSpent(idx, v, tx.vin), tx, |tx.vout|, height)
  }

  /** DisconnectBlock: outputs from `k` on leave the index, the last one first. */
  function EraseOutputs(idx: UnspentIndex, tx: Tx, k: nat): UnspentIndex
    requires k <= |tx.vout|
    decreases |tx.vout| - k
  {
    if k == |tx.vout| then idx
    else Erase(EraseOutputs(idx, tx, k + 1), tx.vout[k], OutPoint(tx.hash, k))
  }

  /** DisconnectBlock: what the inputs had spent enters the index again. The height written
      is the one in the undo record, so it is 0 unless the output was the last one. */
  function WriteRestored(idx: UnspentIndex, vin: seq<OutPoint>, undos: seq<Undo>): UnspentIndex
    requires |undos| == |vin|
    decreases |vin|
  {
    if vin == [] then idx
    else
      var last := |vin| - 1;
      WriteRestored(Write(idx, undos[last].txout, vin[last], undos[last].height), vin[..last], undos[..last])
  }

  function DisconnectIndex(idx: UnspentIndex, tx: Tx, undos: seq<Undo>, first: bool): UnspentIndex
    requires !first ==> |undos| == |tx.vin|
  {
    var erased := EraseOutputs(idx, tx, 0);
    if first then erased else WriteRestored(erased, tx.vin, undos)
  }

  // ----- what is right about an index

  /** The key of an unspent output that pays to the address. */
  predicate IsLive(v: View, key: UnspentKey) {
    OutputAt(v, key.out).Some? && OutputAt(v, key.out).value.script.address == Some(key.address)
  }

  /** The index holds exactly the unspent outputs that pay to an address, with their amounts
      and scripts. */
  ghost predicate Matches(v: View, idx: UnspentIndex) {
    forall key: UnspentKey :: MatchesAt(v, idx, key)
  }

  ghost predicate MatchesAt(v: View, idx: UnspentIndex, key: UnspentKey) {
    if IsLive(v, key) then HoldsOutput(v, idx, key) else key !in idx
  }

  ghost predicate HoldsOutput(v: View, idx: UnspentIndex, key: UnspentKey)
    requires IsLive(v, key)
  {
    var out := OutputAt(v, key.out).value;
    key in idx && idx[key].value == out.value && idx[key].script == out.script
  }

  /** It holds those, and besides exactly the entries `dead`, which have no coin. */
  ghost predicate MatchesBut(v: View, idx: UnspentIndex, dead: set<UnspentKey>) {
    forall key: UnspentKey :: MatchesButAt(v, idx, dead, key)
  }

  ghost predicate MatchesButAt(v: View, idx: UnspentIndex, dead: set<UnspentKey>, key: UnspentKey) {
    if IsLive(v, key) then HoldsOutput(v, idx, key) else key in idx <==> key in dead
  }

  ghost predicate NoneIsLive(v: View, dead: set<UnspentKey>) {
    forall key :: key in dead ==> !IsLive(v, key)
  }

  lemma MatchesIfNoneDead(v: View, idx: UnspentIndex, dead: set<UnspentKey>)
    requires MatchesBut(v, idx, dead) && NoneIsLive(v, dead)
    ensures Matches(v, idx) <==> dead == {}
  {
    hide IsLive;
    forall key: UnspentKey ensures MatchesAt(v, idx, key) <==> key !in dead {
      assert MatchesButAt(v, idx, dead, key);
    }
    if key :| key in dead {
      assert !MatchesAt(v, idx, key);
    }
  }

  lemma MatchesIsMatchesBut(v: View, idx: UnspentIndex)
    requires Matches(v, idx)
    ensures MatchesBut(v, idx, {}) && NoneIsLive(v, {})
  {
    hide IsLive;
    forall key: UnspentKey ensures MatchesButAt(v, idx, {}, key) {
      assert MatchesAt(v, idx, key);
    }
  }

  /** The keys that a transaction's outputs are written under, by whether they can be spent. */
  function OutKeys(tx: Tx, unspendable: bool): (keys: set<UnspentKey>)
    ensures forall key :: key in keys <==> IsOutKey(tx, key) && tx.vout[key.out.n].script.unspendable == unspendable
  {
    var keys := set i | 0 <= i < |tx.vout| && tx.vout[i].script.address.Some?
                        && tx.vout[i].script.unspendable == unspendable
                  :: UnspentKey(tx.vout[i].script.address.value, OutPoint(tx.hash, i));
    assert forall key :: key in keys ==> IsOutKey(tx, key);
    keys
  }

  predicate IsOutKey(tx: Tx, key: UnspentKey) {
    key.out.hash == tx.hash && key.out.n < |tx.vout| && tx.vout[key.out.n].script.address == Some(key.address)
  }

  /** The keys of the coins that a transaction replaces. */
  function ReplacedKeys(v: View, h: Hash): (keys: set<UnspentKey>)
    ensures forall key :: key in keys <==> key.out.hash == h && IsLive(v, key)
  {
    var vout := Get(v, h).vout;
    var keys := set i | 0 <= i < |vout| && !vout[i].IsNull() && vout[i].script.address.Some?
                  :: UnspentKey(vout[i].script.address.value, OutPoint(h, i));
    assert forall key :: key in keys <==> key.out.hash == h && key.out.n < |vout| && !vout[key.out.n].IsNull()
                                          && vout[key.out.n].script.address == Some(key.address);
    keys
  }

  /** The dead entries after connecting: `v1` is the coin set after the inputs are spent. */
  function DeadAfter(v1: View, dead: set<UnspentKey>, tx: Tx): set<UnspentKey> {
    dead + ReplacedKeys(v1, tx.hash) - OutKeys(tx, false) + OutKeys(tx, true)
  }

  /** And after disconnecting. */
  function DeadBefore(dead: set<UnspentKey>, tx: Tx): set<UnspentKey> {
    dead - OutKeys(tx, false) - OutKeys(tx, true)
  }

  /** No output pays to an address and is unspendable at the same time. */
  predicate AddressesAreSpendable(tx: Tx) {
    forall i :: 0 <= i < |tx.vout| && tx.vout[i].script.address.Some? ==> !tx.vout[i].script.unspendable
  }

  lemma SpendableMeans(tx: Tx)
    ensures AddressesAreSpendable(tx) <==> OutKeys(tx, true) == {}
  {
    if i :| 0 <= i < |tx.vout| && tx.vout[i].script.address.Some? && tx.vout[i].script.unspendable {
      assert UnspentKey(tx.vout[i].script.address.value, OutPoint(tx.hash, i)) in OutKeys(tx, true);
    }
  }

  // ----- connecting

  lemma EraseAt(v: View, o: OutPoint, idx: UnspentIndex, dead: set<UnspentKey>, key: UnspentKey)
    requires ProperView(v) && SpendOne(v, o).Some? && NoneIsLive(v, dead) && MatchesButAt(v, idx, dead, key)
    ensures OutputAt(v, o) == Some(SpendOne(v, o).value.1.txout)
    ensures MatchesButAt(SpendOne(v, o).value.0, Erase(idx, SpendOne(v, o).value.1.txout, o), dead, key)
    ensures IsLive(SpendOne(v, o).value.0, key) ==> IsLive(v, key)
  {
    hide SpendOne, OutputAt, ProperView;
    SpendOneOutputs(v, o, key.out);
  }

  lemma EraseOneOutput(v: View, o: OutPoint, idx: UnspentIndex, dead: set<UnspentKey>)
    requires ProperView(v) && SpendOne(v, o).Some? && NoneIsLive(v, dead) && MatchesBut(v, idx, dead)
    ensures OutputAt(v, o) == Some(SpendOne(v, o).value.1.txout)
    ensures MatchesBut(SpendOne(v, o).value.0, Erase(idx, SpendOne(v, o).value.1.txout, o), dead)
    ensures NoneIsLive(SpendOne(v, o).value.0, dead)
  {
    hide SpendOne, OutputAt, ProperView, IsLive, MatchesButAt, Erase;
    SpendOneOutputs(v, o, o);
    forall key: UnspentKey
      ensures MatchesButAt(SpendOne(v, o).value.0, Erase(idx, SpendOne(v, o).value.1.txout, o), dead, key)
      ensures IsLive(SpendOne(v, o).value.0, key) ==> IsLive(v, key)
    {
      EraseAt(v, o, idx, dead, key);
    }
  }

  lemma {:induction false} EraseSpentMatches(idx: UnspentIndex, v: View, vin: seq<OutPoint>, dead: set<UnspentKey>)
    requires ProperView(v) && Distinct(vin)
    requires SpendInputs(v, vin).Some? && MatchesBut(v, idx, dead) && NoneIsLive(v, dead)
    ensures MatchesBut(SpendInputs(v, vin).value.0, EraseSpent(idx, v, vin), dead)
    ensures NoneIsLive(SpendInputs(v, vin).value.0, dead)
  {
    hide SpendOne, OutputAt, ProperView, MatchesBut, NoneIsLive, Erase;
    if vin != [] {
      var last := |vin| - 1;
      EraseSpentMatches(idx, v, vin[..last], dead);
      RestoreInputsUndoes(v, vin[..last]);
      SameOutput(v, vin, last);
      EraseOneOutput(SpendInputs(v, vin[..last]).value.0, vin[last], EraseSpent(idx, v, vin[..last]), dead);
    }
  }

  lemma SameOutput(v: View, vin: seq<OutPoint>, last: nat)
    requires ProperView(v) && Distinct(vin) && last < |vin| && SpendInputs(v, vin[..last]).Some?
    ensures OutputAt(SpendInputs(v, vin[..last]).value.0, vin[last]) == OutputAt(v, vin[last])
  {
    SpendInputsElsewhere(v, vin[..last], vin[last]);
  }

  /** A key of a new transaction after its first `k` outputs were written. */
  lemma {:induction false} WriteOutputsAt(idx: UnspentIndex, tx: Tx, k: nat, height: int, key: UnspentKey)
    requires k <= |tx.vout|
    ensures var idx' := WriteOutputs(idx, tx, k, height);
            if IsOutKey(tx, key) && key.out.n < k
            then key in idx' && idx'[key] == UnspentValue(tx.vout[key.out.n].value, tx.vout[key.out.n].script, height)
            else (key in idx' <==> key in idx) && (key in idx ==> idx'[key] == idx[key])
  {
    if k > 0 {
      WriteOutputsAt(idx, tx, k - 1, height, key);
    }
  }

  lemma WriteAt(v1: View, idx1: UnspentIndex, dead: set<UnspentKey>, tx: Tx, height: int, key: UnspentKey)
    requires MatchesButAt(v1, idx1, dead, key) && ValuesAreValid(tx) && height != 0
    ensures MatchesButAt(Put(v1, tx.hash, FromTx(tx, height)), WriteOutputs(idx1, tx, |tx.vout|, height),
                         DeadAfter(v1, dead, tx), key)
    ensures IsLive(Put(v1, tx.hash, FromTx(tx, height)), key) ==> key !in DeadAfter(v1, dead, tx) || key in dead
    ensures IsLive(Put(v1, tx.hash, FromTx(tx, height)), key) && key in DeadAfter(v1, dead, tx) ==> IsLive(v1, key)
  {
    hide Put, FromTx, WriteOutputs, OutputAt;
    CreatedOutputs(v1, tx, height, key.out);
    WriteOutputsAt(idx1, tx, |tx.vout|, height, key);
  }

  lemma WriteMatches(v1: View, idx1: UnspentIndex, dead: set<UnspentKey>, tx: Tx, height: int)
    requires MatchesBut(v1, idx1, dead) && NoneIsLive(v1, dead) && ValuesAreValid(tx) && height != 0
    ensures MatchesBut(Put(v1, tx.hash, FromTx(tx, height)), WriteOutputs(idx1, tx, |tx.vout|, height),
                       DeadAfter(v1, dead, tx))
    ensures NoneIsLive(Put(v1, tx.hash, FromTx(tx, height)), DeadAfter(v1, dead, tx))
  {
    hide Put, FromTx, WriteOutputs, OutputAt, IsLive, MatchesButAt, DeadAfter;
    var v', dead' := Put(v1, tx.hash, FromTx(tx, height)), DeadAfter(v1, dead, tx);
    forall key: UnspentKey
      ensures MatchesButAt(v', WriteOutputs(idx1, tx, |tx.vout|, height), dead', key)
      ensures key in dead' ==> !IsLive(v', key)
    {
      WriteAt(v1, idx1, dead, tx, height, key);
    }
  }

  /** What connecting a transaction does to the index, exactly: it holds every live output, and
      as dead entries those it had before, those of replaced coins, and those of outputs that
      have an address and cannot be spent. */
  lemma ConnectMatchesBut(v: View, idx: UnspentIndex, dead: set<UnspentKey>, tx: Tx, height: int)
    requires ProperView(v) && UpdateCoins(v, tx, height).Some? && ValuesAreValid(tx) && height != 0
    requires !tx.IsCoinBase() ==> Distinct(tx.vin)
    requires MatchesBut(v, idx, dead) && NoneIsLive(v, dead)
    ensures var v', dead' := UpdateCoins(v, tx, height).value.0, DeadAfter(SpendPhase(v, tx).value.0, dead, tx);
            MatchesBut(v', ConnectIndex(idx, v, tx, height), dead') && NoneIsLive(v', dead')
  {
    hide MatchesBut, NoneIsLive, DeadAfter, Put, FromTx, SpendInputs, EraseSpent, WriteOutputs;
    if !tx.IsCoinBase() {
      EraseSpentMatches(idx, v, tx.vin, dead);
    }
    var idx1 := if tx.IsCoinBase() then idx else EraseSpent(idx, v, tx.vin);
    WriteMatches(SpendPhase(v, tx).value.0, idx1, dead, tx, height);
  }

  lemma NothingReplaced(v: View, tx: Tx)
    requires SpendPhase(v, tx).Some? && !Replaces(v, tx)
    ensures ReplacedKeys(SpendPhase(v, tx).value.0, tx.hash) == {}
  {
  }

  /** From a matching index, connecting a transaction gives a matching index if and only if
      none of its outputs is unspendable and still pays to an address. */
  lemma ConnectKeepsMatch(v: View, idx: UnspentIndex, tx: Tx, height: int)
    requires ProperView(v) && UpdateCoins(v, tx, height).Some? && Matches(v, idx)
    requires ValuesAreValid(tx) && height != 0
    requires !tx.IsCoinBase() ==> Distinct(tx.vin)
    requires !Replaces(v, tx)
    ensures Matches(UpdateCoins(v, tx, height).value.0, ConnectIndex(idx, v, tx, height))
            <==> AddressesAreSpendable(tx)
  {
    hide Matches, MatchesBut, NoneIsLive, ReplacedKeys, OutKeys, AddressesAreSpendable, ConnectIndex, SpendPhase;
    MatchesIsMatchesBut(v, idx);
    ConnectMatchesBut(v, idx, {}, tx, height);
    NothingReplaced(v, tx);
    SpendableMeans(tx);
    MatchesIfNoneDead(UpdateCoins(v, tx, height).value.0, ConnectIndex(idx, v, tx, height),
                      DeadAfter(SpendPhase(v, tx).value.0, {}, tx));
  }

  // ----- disconnecting

  lemma {:induction false} EraseOutputsAt(idx: UnspentIndex, tx: Tx, k: nat, key: UnspentKey)
    requires k <= |tx.vout|
    ensures var idx' := EraseOutputs(idx, tx, k);
            if IsOutKey(tx, key) && k <= key.out.n then key !in idx'
            else (key in idx' <==> key in idx) && (key in idx ==> idx'[key] == idx[key])
    decreases |tx.vout| - k
  {
    if k < |tx.vout| {
      EraseOutputsAt(idx, tx, k + 1, key);
    }
  }

  lemma EraseOutputsMatches(v1: View, idx: UnspentIndex, dead: set<UnspentKey>, tx: Tx, height: int)
    requires ValuesAreValid(tx) && height != 0 && tx.hash !in v1
    requires MatchesBut(Put(v1, tx.hash, FromTx(tx, height)), idx, dead)
    ensures MatchesBut(v1, EraseOutputs(idx, tx, 0), DeadBefore(dead, tx))
  {
    hide Put, FromTx, EraseOutputs;
    forall key: UnspentKey ensures MatchesButAt(v1, EraseOutputs(idx, tx, 0), DeadBefore(dead, tx), key) {
      CreatedOutputs(v1, tx, height, key.out);
      EraseOutputsAt(idx, tx, 0, key);
      assert MatchesButAt(Put(v1, tx.hash, FromTx(tx, height)), idx, dead, key);
    }
  }

  lemma WriteBack(v: View, o: OutPoint, idx: UnspentIndex, dead: set<UnspentKey>)
    requires ProperView(v) && SpendOne(v, o).Some? && MatchesBut(SpendOne(v, o).value.0, idx, dead)
    ensures var undo := SpendOne(v, o).value.1;
            MatchesBut(v, Write(idx, undo.txout, o, undo.height), dead)
  {
    hide SpendOne, OutputAt, ProperView;
    var undo := SpendOne(v, o).value.1;
    forall key: UnspentKey ensures MatchesButAt(v, Write(idx, undo.txout, o, undo.height), dead, key) {
      SpendOneOutputs(v, o, key.out);
      assert MatchesButAt(SpendOne(v, o).value.0, idx, dead, key);
    }
  }

  lemma {:induction false} WriteRestoredMatches(v: View, vin: seq<OutPoint>, idx: UnspentIndex, dead: set<UnspentKey>)
    requires ProperView(v) && SpendInputs(v, vin).Some?
    requires MatchesBut(SpendInputs(v, vin).value.0, idx, dead)
    ensures MatchesBut(v, WriteRestored(idx, vin, SpendInputs(v, vin).value.1), dead)
  {
    hide SpendOne, ProperView, MatchesBut, Write;
    if vin != [] {
      var last := |vin| - 1;
      var (v1, undos1) := SpendInputs(v, vin[..last]).value;
      var (v', undos) := SpendInputs(v, vin).value;
      RestoreInputsUndoes(v, vin[..last]);
      WriteBack(v1, vin[last], idx, dead);
      WriteRestoredMatches(v, vin[..last], Write(idx, undos[last].txout, vin[last], undos[last].height), dead);
      assert undos[..last] == undos1;
    }
  }

  /** What disconnecting does, exactly: every entry of the transaction goes, dead or not. */
  lemma DisconnectMatchesBut(v: View, idx: UnspentIndex, dead: set<UnspentKey>, tx: Tx, height: int)
    requires ProperView(v) && UpdateCoins(v, tx, height).Some?
    requires ValuesAreValid(tx) && height != 0 && !Replaces(v, tx)
    requires MatchesBut(UpdateCoins(v, tx, height).value.0, idx, dead)
    ensures MatchesBut(v, DisconnectIndex(idx, tx, UpdateCoins(v, tx, height).value.1, tx.IsCoinBase()),
                       DeadBefore(dead, tx))
  {
    hide MatchesBut, DeadBefore, Put, FromTx, EraseOutputs, WriteRestored, SpendInputs;
    EraseOutputsMatches(SpendPhase(v, tx).value.0, idx, dead, tx, height);
    if !tx.IsCoinBase() {
      WriteRestoredMatches(v, tx.vin, EraseOutputs(idx, tx, 0), DeadBefore(dead, tx));
    }
  }

  /** From an index that matches after connecting `tx`, disconnecting it gives an index that
      matches the coin set before. */
  lemma DisconnectKeepsMatch(v: View, idx: UnspentIndex, tx: Tx, height: int)
    requires ProperView(v) && UpdateCoins(v, tx, height).Some?
    requires ValuesAreValid(tx) && height != 0 && !Replaces(v, tx)
    requires Matches(UpdateCoins(v, tx, height).value.0, idx)
    ensures Matches(v, DisconnectIndex(idx, tx, UpdateCoins(v, tx, height).value.1, tx.IsCoinBase()))
  {
    hide Matches, MatchesBut, DisconnectIndex, UpdateCoins, OutKeys, SpendPhase;
    var v', undos := UpdateCoins(v, tx, height).value.0, UpdateCoins(v, tx, height).value.1;
    MatchesIsMatchesBut(v', idx);
    DisconnectMatchesBut(v, idx, {}, tx, height);
    assert DeadBefore({}, tx) == {};
    MatchesIfNoneDead(v, DisconnectIndex(idx, tx, undos, tx.IsCoinBase()), {});
  }
}
