/** The address index proper: one entry for every time an address received or spent, written
    by ConnectBlock and erased by DisconnectBlock (src/core/main.cpp). */
module AddressDeltas {
  import opened Common
  import opened Transactions
  import opened CoinSet
  import opened BlockUndo
  import opened CoinSums
  import opened MapSums
  import opened AddressIndex

  datatype DeltaKey = DeltaKey(
    address: Address, height: int, position: nat, txhash: Hash, index: nat, spending: bool)

  type DeltaIndex = map<DeltaKey, int>

  // ----- writing

  /** The first `k` inputs of the transaction at `position` in the block. */
  function WriteSpends(d: DeltaIndex, v: View, tx: Tx, height: int, position: nat, k: nat): DeltaIndex
    requires k <= |tx.vin|
  {
    if k == 0 then d
    else
      var d1 := WriteSpends(d, v, tx, height, position, k - 1);
      match OutputAt(v, tx.vin[k - 1])
      case None => d1
      case Some(out) =>
        match out.script.address
        case None => d1
        case Some(a) => d1[DeltaKey(a, height, position, tx.hash, k - 1, true) := -out.value]
  }

  /** Its first `k` outputs. */
  function WriteReceipts(d: DeltaIndex, tx: Tx, height: int, position: nat, k: nat): DeltaIndex
    requires k <= |tx.vout|
  {
    if k == 0 then d
    else
      var d1 := WriteReceipts(d, tx, height, position, k - 1);
      match tx.vout[k - 1].script.address
      case None => d1
      case Some(a) => d1[DeltaKey(a, height, position, tx.hash, k - 1, false) := tx.vout[k - 1].value]
  }

  function ConnectDeltas(d: DeltaIndex, v: View, tx: Tx, height: int, position: nat): DeltaIndex {
    WriteReceipts(if tx.IsCoinBase() then d else WriteSpends(d, v, tx, height, position, |tx.vin|),
                  tx, height, position, |tx.vout|)
  }

  // ----- erasing

  function EraseReceipts(d: DeltaIndex, tx: Tx, height: int, position: nat, k: nat): DeltaIndex
    requires k <= |tx.vout|
    decreases |tx.vout| - k
  {
    if k == |tx.vout| then d
    else
      var d1 := EraseReceipts(d, tx, height, position, k + 1);
      match tx.vout[k].script.address
      case None => d1
      case Some(a) => d1 - {DeltaKey(a, height, position, tx.hash, k, false)}
  }

  function EraseSpends(d: DeltaIndex, tx: Tx, undos: seq<Undo>, height: int, position: nat, k: nat): DeltaIndex
    requires k <= |tx.vin| == |undos|
    decreases |tx.vin| - k
  {
    if k == |tx.vin| then d
    else
      var d1 := EraseSpends(d, tx, undos, height, position, k + 1);
      match undos[k].txout.script.address
      case None => d1
      case Some(a) => d1 - {DeltaKey(a, height, position, tx.hash, k, true)}
  }

  function DisconnectDeltas(d: DeltaIndex, tx: Tx, undos: seq<Undo>, height: int, position: nat,
                            first: bool): DeltaIndex
    requires !first ==> |undos| == |tx.vin|
  {
    var d1 := EraseReceipts(d, tx, height, position, 0);
    if first then d1 else EraseSpends(d1, tx, undos, height, position, 0)
  }

  // ----- which keys

  predicate KeyOf(key: DeltaKey, height: int, position: nat) {
    key.height == height && key.position == position
  }

  /** No entry of the transaction at this height and position is there yet. */
  ghost predicate Unused(d: DeltaIndex, height: int, position: nat) {
    forall key :: key in d ==> !KeyOf(key, height, position)
  }

  ghost predicate IsSpendKey(key: DeltaKey, v: View, tx: Tx, height: int, position: nat) {
    && KeyOf(key, height, position) && key.txhash == tx.hash && key.spending && key.index < |tx.vin|
    && OutputAt(v, tx.vin[key.index]).Some?
    && OutputAt(v, tx.vin[key.index]).value.script.address == Some(key.address)
  }

  ghost predicate IsReceiptKey(key: DeltaKey, tx: Tx, height: int, position: nat) {
    && KeyOf(key, height, position) && key.txhash == tx.hash && !key.spending && key.index < |tx.vout|
    && tx.vout[key.index].script.address == Some(key.address)
  }

  lemma {:induction false} WriteSpendsAt(d: DeltaIndex, v: View, tx: Tx, height: int, position: nat, k: nat,
                                         key: DeltaKey)
    requires k <= |tx.vin|
    ensures var d' := WriteSpends(d, v, tx, height, position, k);
            && (key in d' <==> key in d || (IsSpendKey(key, v, tx, height, position) && key.index < k))
            && (key in d && !KeyOf(key, height, position) ==> d'[key] == d[key])
  {
    if k > 0 {
      WriteSpendsAt(d, v, tx, height, position, k - 1, key);
    }
  }

  lemma {:induction false} WriteReceiptsAt(d: DeltaIndex, tx: Tx, height: int, position: nat, k: nat, key: DeltaKey)
    requires k <= |tx.vout|
    ensures var d' := WriteReceipts(d, tx, height, position, k);
            && (key in d' <==> key in d || (IsReceiptKey(key, tx, height, position) && key.index < k))
            && (key in d && !KeyOf(key, height, position) ==> d'[key] == d[key])
  {
    if k > 0 {
      WriteReceiptsAt(d, tx, height, position, k - 1, key);
    }
  }

  lemma {:induction false} EraseReceiptsAt(d: DeltaIndex, tx: Tx, height: int, position: nat, k: nat, key: DeltaKey)
    requires k <= |tx.vout|
    ensures var d' := EraseReceipts(d, tx, height, position, k);
            && (key in d' <==> key in d && !(IsReceiptKey(key, tx, height, position) && k <= key.index))
            && (key in d' ==> d'[key] == d[key])
    decreases |tx.vout| - k
  {
    if k < |tx.vout| {
      EraseReceiptsAt(d, tx, height, position, k + 1, key);
    }
  }

  lemma {:induction false} EraseSpendsAt(d: DeltaIndex, v: View, tx: Tx, undos: seq<Undo>, height: int, position: nat,
                                         k: nat, key: DeltaKey)
    requires k <= |tx.vin| == |undos|
    requires forall i :: 0 <= i < |tx.vin| ==> OutputAt(v, tx.vin[i]) == Some(undos[i].txout)
    ensures var d' := EraseSpends(d, tx, undos, height, position, k);
            && (key in d' <==> key in d && !(IsSpendKey(key, v, tx, height, position) && k <= key.index))
            && (key in d' ==> d'[key] == d[key])
    decreases |tx.vin| - k
  {
    if k < |tx.vin| {
      EraseSpendsAt(d, v, tx, undos, height, position, k + 1, key);
    }
  }

  /** Disconnecting a transaction erases exactly the entries that connecting it wrote. */
  lemma DeltasAreErased(d: DeltaIndex, v: View, tx: Tx, height: int, position: nat)
    requires ProperView(v) && UpdateCoins(v, tx, height).Some?
    requires !tx.IsCoinBase() ==> HaveInputs(v, tx.vin) && Distinct(tx.vin)
    requires Unused(d, height, position)
    ensures DisconnectDeltas(ConnectDeltas(d, v, tx, height, position), tx, UpdateCoins(v, tx, height).value.1,
                             height, position, tx.IsCoinBase()) == d
  {
    var undos := UpdateCoins(v, tx, height).value.1;
    var d1 := if tx.IsCoinBase() then d else WriteSpends(d, v, tx, height, position, |tx.vin|);
    var d2 := ConnectDeltas(d, v, tx, height, position);
    var d3 := EraseReceipts(d2, tx, height, position, 0);
    var d4 := DisconnectDeltas(d2, tx, undos, height, position, tx.IsCoinBase());
    if !tx.IsCoinBase() {
      InputsCanBeSpent(v, tx.vin);
    }
    forall key: DeltaKey ensures key in d4 <==> key in d
    {
      DeltaKeyTrip(d, v, tx, height, position, key);
    }
    forall key: DeltaKey | key in d ensures d4[key] == d[key]
    {
      DeltaKeyTrip(d, v, tx, height, position, key);
    }
  }

  lemma DeltaKeyTrip(d: DeltaIndex, v: View, tx: Tx, height: int, position: nat, key: DeltaKey)
    requires ProperView(v) && UpdateCoins(v, tx, height).Some?
    requires !tx.IsCoinBase() ==> HaveInputs(v, tx.vin) && Distinct(tx.vin)
    requires Unused(d, height, position)
    ensures var d' := DisconnectDeltas(ConnectDeltas(d, v, tx, height, position), tx,
                                       UpdateCoins(v, tx, height).value.1, height, position, tx.IsCoinBase());
            (key in d' <==> key in d) && (key in d ==> d'[key] == d[key])
  {
    var undos := UpdateCoins(v, tx, height).value.1;
    var d1 := if tx.IsCoinBase() then d else WriteSpends(d, v, tx, height, position, |tx.vin|);
    var d2 := WriteReceipts(d1, tx, height, position, |tx.vout|);
    var d3 := EraseReceipts(d2, tx, height, position, 0);
    WriteReceiptsAt(d1, tx, height, position, |tx.vout|, key);
    EraseReceiptsAt(d2, tx, height, position, 0, key);
    if !tx.IsCoinBase() {
      InputsCanBeSpent(v, tx.vin);
      WriteSpendsAt(d, v, tx, height, position, |tx.vin|, key);
      EraseSpendsAt(d3, v, tx, undos, height, position, 0, key);
    }
  }

  // ----- the sum of an address's entries

  /** What an output adds to the balance of an address. */
  function PaysTo(a: Address): TxOut -> int {
    (o: TxOut) => if !o.IsNull() && o.script.address == Some(a) then o.value else 0
  }

  function DeltaWeight(a: Address): (DeltaKey, int) -> int {
    (key: DeltaKey, amount: int) => if key.address == a then amount else 0
  }

  /** The sum of the address's entries is what it has unspent. */
  ghost predicate Balanced(v: View, d: DeltaIndex, a: Address) {
    Sum(DeltaWeight(a), d) == Total(PaysTo(a), v)
  }

  lemma {:induction false} SpendsSum(d: DeltaIndex, v: View, tx: Tx, undos: seq<Undo>, height: int, position: nat,
                                     k: nat, a: Address)
    requires k <= |tx.vin| == |undos| && Unused(d, height, position)
    requires forall i :: 0 <= i < |tx.vin| ==> OutputAt(v, tx.vin[i]) == Some(undos[i].txout)
    ensures Sum(DeltaWeight(a), WriteSpends(d, v, tx, height, position, k))
            == Sum(DeltaWeight(a), d) - SumUndos(PaysTo(a), undos[..k])
  {
    hide OutputAt, Sum;
    if k > 0 {
      SpendsSum(d, v, tx, undos, height, position, k - 1, a);
      assert undos[..k][..k - 1] == undos[..k - 1];
      var out := undos[k - 1].txout;
      AvailableIsNotNull(v, tx.vin[k - 1]);
      var d1 := WriteSpends(d, v, tx, height, position, k - 1);
      if out.script.address.Some? {
        var key := DeltaKey(out.script.address.value, height, position, tx.hash, k - 1, true);
        WriteSpendsAt(d, v, tx, height, position, k - 1, key);
        SumWrite(DeltaWeight(a), d1, key, -out.value);
      }
    }
  }

  lemma AvailableIsNotNull(v: View, o: OutPoint)
    requires OutputAt(v, o).Some?
    ensures !OutputAt(v, o).value.IsNull()
  {
  }

  lemma {:induction false} ReceiptsSum(d: DeltaIndex, tx: Tx, height: int, position: nat, k: nat, a: Address)
    requires k <= |tx.vout| && ValuesAreValid(tx)
    requires forall key :: key in d && KeyOf(key, height, position) ==> key.spending
    ensures Sum(DeltaWeight(a), WriteReceipts(d, tx, height, position, k))
            == Sum(DeltaWeight(a), d) + SumOuts(PaysTo(a), tx.vout[..k])
  {
    if k > 0 {
      ReceiptsSum(d, tx, height, position, k - 1, a);
      assert tx.vout[..k][..k - 1] == tx.vout[..k - 1];
      var d1 := WriteReceipts(d, tx, height, position, k - 1);
      var out := tx.vout[k - 1];
      if out.script.address.Some? {
        var key := DeltaKey(out.script.address.value, height, position, tx.hash, k - 1, false);
        WriteReceiptsAt(d, tx, height, position, k - 1, key);
        SumWrite(DeltaWeight(a), d1, key, out.value);
      }
    }
  }

  /** What the address has received by the index and does not have unspent. */
  ghost function Excess(v: View, d: DeltaIndex, a: Address): int {
    Sum(DeltaWeight(a), d) - Total(PaysTo(a), v)
  }

  /** What a transaction makes the index count for the address without a coin: its own outputs
      that cannot be spent, and the coins that it replaces. `v1` is the coin set after its inputs
      are spent. */
  function LostBy(v1: View, tx: Tx, a: Address): int {
    SumOuts(Unspendable(PaysTo(a)), tx.vout) + SumOuts(PaysTo(a), Get(v1, tx.hash).vout)
  }

  /** Connecting a transaction, accounted for exactly. */
  lemma ConnectAccounts(v: View, d: DeltaIndex, tx: Tx, height: int, position: nat, a: Address)
    requires ProperView(v) && UpdateCoins(v, tx, height).Some? && ValuesAreValid(tx)
    requires !tx.IsCoinBase() ==> HaveInputs(v, tx.vin) && Distinct(tx.vin)
    requires Unused(d, height, position)
    ensures Excess(UpdateCoins(v, tx, height).value.0, ConnectDeltas(d, v, tx, height, position), a)
            == Excess(v, d, a) + LostBy(SpendPhase(v, tx).value.0, tx, a)
  {
    hide ProperView, HaveInputs, Distinct, ValuesAreValid, WriteSpends, WriteReceipts, OutputAt, SumOuts, Spendable,
      Unspendable;
    var undos := UpdateCoins(v, tx, height).value.1;
    var d1 := if tx.IsCoinBase() then d else WriteSpends(d, v, tx, height, position, |tx.vin|);
    UpdateCoinsTotal(PaysTo(a), v, tx, height);
    SumOutsSplit(PaysTo(a), tx.vout);
    if !tx.IsCoinBase() {
      SpendsAre(v, tx, undos, height);
      SpendsSum(d, v, tx, undos, height, position, |tx.vin|, a);
      assert undos[..|tx.vin|] == undos;
    } else {
      NoUndos(a);
    }
    forall key | key in d1 && KeyOf(key, height, position) ensures key.spending {
      if !tx.IsCoinBase() { WriteSpendsAt(d, v, tx, height, position, |tx.vin|, key); }
    }
    ReceiptsSum(d1, tx, height, position, |tx.vout|, a);
    assert tx.vout[..|tx.vout|] == tx.vout;
  }

  lemma NoUndos(a: Address)
    ensures SumUndos(PaysTo(a), []) == 0
  {
  }

  lemma SpendsAre(v: View, tx: Tx, undos: seq<Undo>, height: int)
    requires ProperView(v) && HaveInputs(v, tx.vin) && Distinct(tx.vin) && !tx.IsCoinBase()
    requires UpdateCoins(v, tx, height).Some? && undos == UpdateCoins(v, tx, height).value.1
    ensures |undos| == |tx.vin| && forall i :: 0 <= i < |tx.vin| ==> OutputAt(v, tx.vin[i]) == Some(undos[i].txout)
  {
    InputsCanBeSpent(v, tx.vin);
  }

  /** From balanced entries, connecting a transaction that replaces nothing leaves the address
      balanced if and only if it gets nothing in outputs that cannot be spent. */
  lemma ConnectKeepsBalance(v: View, d: DeltaIndex, tx: Tx, height: int, position: nat, a: Address)
    requires ProperView(v) && UpdateCoins(v, tx, height).Some?
    requires ValuesAreValid(tx) && !Replaces(v, tx)
    requires !tx.IsCoinBase() ==> HaveInputs(v, tx.vin) && Distinct(tx.vin)
    requires Unused(d, height, position) && Balanced(v, d, a)
    ensures Balanced(UpdateCoins(v, tx, height).value.0, ConnectDeltas(d, v, tx, height, position), a)
            <==> forall i :: 0 <= i < |tx.vout| && tx.vout[i].script.unspendable && tx.vout[i].script.address == Some(a)
                             ==> tx.vout[i].value == 0
  {
    ConnectAccounts(v, d, tx, height, position, a);
    SumOutsZero(Unspendable(PaysTo(a)), tx.vout);
    assert Get(SpendPhase(v, tx).value.0, tx.hash).vout == [];
    assert forall i :: 0 <= i < |tx.vout| ==>
      (Unspendable(PaysTo(a))(tx.vout[i]) == 0 <==>
        (tx.vout[i].script.unspendable && tx.vout[i].script.address == Some(a) ==> tx.vout[i].value == 0));
  }

  /** A coinbase with one output that has an address and cannot be spent breaks both indexes. */
  lemma DeadOutputBreaksBoth()
    ensures var a := Address(2, 7);
            var tx := Tx(1, 1, [NULL_OUTPOINT], [TxOut(5, Script(1, Some(a), true))]);
            && UpdateCoins(map[], tx, 1).Some?
            && Matches(map[], map[]) && Balanced(map[], map[], a)
            && !Matches(UpdateCoins(map[], tx, 1).value.0, ConnectIndex(map[], map[], tx, 1))
            && !Balanced(UpdateCoins(map[], tx, 1).value.0, ConnectDeltas(map[], map[], tx, 1, 0), a)
  {
    var a := Address(2, 7);
    var tx := Tx(1, 1, [NULL_OUTPOINT], [TxOut(5, Script(1, Some(a), true))]);
    hide Matches, Balanced, ConnectIndex, ConnectDeltas;
    EmptyIsRight(a);
    assert tx.vout[0].script.unspendable && tx.vout[0].script.address == Some(a) && tx.vout[0].value != 0;
    ConnectKeepsMatch(map[], map[], tx, 1);
    ConnectKeepsBalance(map[], map[], tx, 1, 0, a);
  }

  lemma EmptyIsRight(a: Address)
    ensures Matches(map[], map[]) && Balanced(map[], map[], a)
  {
  }

  lemma ConnectUsesItsKeys(d: DeltaIndex, v: View, tx: Tx, height: int, position: nat, key: DeltaKey)
    requires key in ConnectDeltas(d, v, tx, height, position)
    ensures key in d || KeyOf(key, height, position)
  {
    var d1 := if tx.IsCoinBase() then d else WriteSpends(d, v, tx, height, position, |tx.vin|);
    WriteReceiptsAt(d1, tx, height, position, |tx.vout|, key);
    if !tx.IsCoinBase() {
      WriteSpendsAt(d, v, tx, height, position, |tx.vin|, key);
    }
  }
}
