/** Where every coin of a chain comes from, and what follows for the transactions that spend it:
    no output is spent twice, and none of a coinbase before it is mature (src/core/main.cpp,
    src/storage/coins.h). */
module CoinHistory {
  import opened Common
  import opened Transactions
  import opened CoinSet
  import opened BlockUndo
  import opened CoinSums
  import opened AddressIndex
  import opened Ledger
  import opened ChainRun

  /** A transaction and the height of its block. */
  datatype Item = Item(tx: Tx, height: int)

  /** The transactions of a chain in order. */
  function Items(txs: seq<Tx>, height: int): (r: seq<Item>)
    ensures |r| == |txs| && forall i :: 0 <= i < |txs| ==> r[i] == Item(txs[i], height)
  {
    seq(|txs|, i requires 0 <= i < |txs| => Item(txs[i], height))
  }

  function AllItems(blocks: seq<BlockRecord>): seq<Item> {
    if blocks == [] then []
    else AllItems(blocks[..|blocks| - 1]) + Items(blocks[|blocks| - 1].txs, |blocks|)
  }

  /** Those before transaction `i` of block `k`. */
  function Before(blocks: seq<BlockRecord>, k: nat, i: nat): seq<Item>
    requires k < |blocks| && i <= |blocks[k].txs|
  {
    AllItems(blocks[..k]) + Items(blocks[k].txs[..i], k + 1)
  }

  /** The coin set after some transactions, one after the other. */
  function CoinsAfter(items: seq<Item>): Option<View> {
    if items == [] then Some(map[])
    else
      match CoinsAfter(items[..|items| - 1])
      case None => None
      case Some(v) =>
        match UpdateCoins(v, items[|items| - 1].tx, items[|items| - 1].height)
        case None => None
        case Some((v', _)) => Some(v')
  }

  /** The last transaction with a txid. */
  function LastWith(items: seq<Item>, h: Hash): Option<Item> {
    if items == [] then None
    else if items[|items| - 1].tx.hash == h then Some(items[|items| - 1])
    else LastWith(items[..|items| - 1], h)
  }

  // ----- every coin is as its transaction made it

  /** The coins under a txid have the coinbase verdict, height and version of the transaction and
      block that made them, and their outputs are among its outputs that can be spent. */
  ghost predicate AsMade(c: Coins, it: Item) {
    && c.coinBase == it.tx.IsCoinBase() && c.height == it.height && c.version == it.tx.version
    && forall n: nat :: c.IsAvailable(n) ==>
         n < |it.tx.vout| && c.vout[n] == it.tx.vout[n] && !it.tx.vout[n].script.unspendable
  }

  ghost predicate HasOrigins(v: View, items: seq<Item>) {
    forall h :: h in v ==> LastWith(items, h).Some? && AsMade(v[h], LastWith(items, h).value)
  }

  lemma MadeAsMade(tx: Tx, height: int)
    ensures AsMade(Stored(FromTx(tx, height)), Item(tx, height)) || Stored(FromTx(tx, height)) == CLEARED
  {
    var kept := WithoutUnspendable(tx.vout);
    assert NULL_OUT.IsNull();
    assert forall n: nat :: FromTx(tx, height).IsAvailable(n) ==> kept[n] == FromTx(tx, height).vout[n];
  }

  /** UpdateCoins, for one transaction: the coins that it makes carry its coinbase verdict, its
      version and the height. */
  lemma NewCoinsAreAsMade(v: View, tx: Tx, height: int)
    requires UpdateCoins(v, tx, height).Some? && tx.hash in UpdateCoins(v, tx, height).value.0
    ensures AsMade(UpdateCoins(v, tx, height).value.0[tx.hash], Item(tx, height))
  {
    MadeAsMade(tx, height);
  }

  lemma SpendKeepsMade(c: Coins, n: nat, it: Item)
    requires AsMade(c, it) && Spend(c, n).Some?
    ensures AsMade(Stored(Spend(c, n).value.0), it) || Stored(Spend(c, n).value.0) == CLEARED
  {
    var c' := Spend(c, n).value.0;
    forall k: nat | Stored(c').IsAvailable(k) ensures c.IsAvailable(k) && Stored(c').vout[k] == c.vout[k] {
    }
  }

  lemma SpendOneKeepsOrigins(v: View, o: OutPoint, items: seq<Item>)
    requires HasOrigins(v, items) && SpendOne(v, o).Some?
    ensures HasOrigins(SpendOne(v, o).value.0, items)
  {
    hide Spend, Stored, AsMade, LastWith;
    SpentIsThere(v, o);
    SpendKeepsMade(v[o.hash], o.n, LastWith(items, o.hash).value);
  }

  lemma SpentIsThere(v: View, o: OutPoint)
    requires SpendOne(v, o).Some?
    ensures o.hash in v && Get(v, o.hash) == v[o.hash] && Get(v, o.hash).IsAvailable(o.n)
  {
  }

  lemma {:induction false} SpendInputsKeepsOrigins(v: View, vin: seq<OutPoint>, items: seq<Item>)
    requires HasOrigins(v, items) && SpendInputs(v, vin).Some?
    ensures HasOrigins(SpendInputs(v, vin).value.0, items)
  {
    hide HasOrigins, SpendOne;
    if vin != [] {
      SpendInputsKeepsOrigins(v, vin[..|vin| - 1], items);
      SpendOneKeepsOrigins(SpendInputs(v, vin[..|vin| - 1]).value.0, vin[|vin| - 1], items);
    }
  }

  lemma UpdateKeepsOrigins(v: View, items: seq<Item>, it: Item)
    requires HasOrigins(v, items) && UpdateCoins(v, it.tx, it.height).Some?
    ensures HasOrigins(UpdateCoins(v, it.tx, it.height).value.0, items + [it])
  {
    hide FromTx, Stored, AsMade, SpendInputs;
    if !it.tx.IsCoinBase() {
      SpendInputsKeepsOrigins(v, it.tx.vin, items);
    }
    var v1 := SpendPhase(v, it.tx).value.0;
    var longer := items + [it];
    assert longer[..|longer| - 1] == items && longer[|longer| - 1] == it;
    MadeAsMade(it.tx, it.height);
    forall h | h in UpdateCoins(v, it.tx, it.height).value.0
      ensures LastWith(longer, h).Some?
      ensures AsMade(UpdateCoins(v, it.tx, it.height).value.0[h], LastWith(longer, h).value)
    {
      if h != it.tx.hash {
        assert h in v1;
      }
    }
  }

  /** After any transactions, every coin is as the last transaction with its txid made it. */
  lemma {:induction false} CoinsHaveOrigins(items: seq<Item>)
    requires CoinsAfter(items).Some?
    ensures HasOrigins(CoinsAfter(items).value, items)
  {
    hide HasOrigins, UpdateCoins;
    if items == [] {
      NoOrigins();
    } else {
      var init, it := items[..|items| - 1], items[|items| - 1];
      CoinsHaveOrigins(init);
      UpdateKeepsOrigins(CoinsAfter(init).value, init, it);
      assert items == init + [it];
    }
  }

  lemma NoOrigins()
    ensures HasOrigins(map[], [])
  {
  }

  // ----- chains as lists of transactions

  lemma {:induction false} BlockAsItems(items: seq<Item>, v: View, txs: seq<Tx>, height: int)
    requires CoinsAfter(items) == Some(v) && ConnectTxs(v, txs, height).Some?
    ensures CoinsAfter(items + Items(txs, height)) == Some(ConnectTxs(v, txs, height).value.0)
  {
    hide UpdateCoins;
    if txs == [] {
      assert items + Items(txs, height) == items;
    } else {
      var init := txs[..|txs| - 1];
      BlockAsItems(items, v, init, height);
      var all := items + Items(txs, height);
      assert all[..|all| - 1] == items + Items(init, height);
    }
  }

  lemma {:induction false} ChainAsItems(p: Params, blocks: seq<BlockRecord>)
    requires p.halvingInterval > 0 && ChainIsValid(p, blocks)
    ensures CoinsAfter(AllItems(blocks)) == Some(ViewOf(blocks))
  {
    hide ConnectTxs, ValidBlock, CoinsAfter;
    if blocks == [] {
      NothingYet();
    } else {
      var init := blocks[..|blocks| - 1];
      ChainAsItems(p, init);
      BlockAsItems(AllItems(init), ViewOf(init), blocks[|blocks| - 1].txs, |blocks|);
    }
  }

  lemma NothingYet()
    ensures CoinsAfter([]) == Some(map[])
  {
  }

  lemma {:induction false} ChainPrefix(p: Params, blocks: seq<BlockRecord>, k: nat)
    requires p.halvingInterval > 0 && ChainIsValid(p, blocks) && k <= |blocks|
    ensures ChainIsValid(p, blocks[..k])
    decreases |blocks|
  {
    hide ConnectTxs, ValidBlock, ViewOf;
    if k == |blocks| {
      assert blocks[..k] == blocks;
    } else {
      ChainPrefix(p, blocks[..|blocks| - 1], k);
      assert blocks[..|blocks| - 1][..k] == blocks[..k];
    }
  }

  lemma {:induction false} PassesAt(p: Params, v: View, txs: seq<Tx>, height: int, i: nat)
    requires AllPass(p, v, txs, height) && i < |txs|
    ensures ConnectTxs(v, txs[..i], height).Some?
    ensures Passes(p, ConnectTxs(v, txs[..i], height).value.0, txs[i], height)
    decreases |txs|
  {
    hide ConnectTxs, Passes;
    if i < |txs| - 1 {
      PassesAt(p, v, txs[..|txs| - 1], height, i);
      assert txs[..|txs| - 1][..i] == txs[..i];
    }
  }

  /** Every transaction of a valid chain passes the checks on the coins that those before it have
      left. */
  lemma PassesInChain(p: Params, blocks: seq<BlockRecord>, k: nat, i: nat)
    requires p.halvingInterval > 0 && ChainIsValid(p, blocks) && k < |blocks| && i < |blocks[k].txs|
    ensures CoinsAfter(Before(blocks, k, i)).Some?
    ensures Passes(p, CoinsAfter(Before(blocks, k, i)).value, blocks[k].txs[i], k + 1)
  {
    hide ConnectTxs, ValidBlock, CoinsAfter, AllPass, Passes, ViewOf;
    var init, b := blocks[..k], blocks[k];
    ChainPrefix(p, blocks, k);
    ChainPrefix(p, blocks, k + 1);
    assert blocks[..k + 1][..k] == init && blocks[..k + 1][k] == b;
    ChainParts(p, blocks[..k + 1]);
    ValidMeans(p, ViewOf(init), b.txs, k + 1);
    ChainAsItems(p, init);
    PassesAt(p, ViewOf(init), b.txs, k + 1, i);
    BlockAsItems(AllItems(init), ViewOf(init), b.txs[..i], k + 1);
  }

  // ----- what a chain promises of each input

  /** Every input in a valid chain spends an output, which can be spent, of the last transaction
      before it with the txid it names; and if that is a coinbase, it is mature. */
  lemma InputsAreMature(p: Params, blocks: seq<BlockRecord>, k: nat, i: nat, j: nat)
    requires p.halvingInterval > 0 && ChainIsValid(p, blocks) && k < |blocks| && i < |blocks[k].txs|
    requires var tx := blocks[k].txs[i]; !tx.IsCoinBase() && j < |tx.vin|
    ensures var o := blocks[k].txs[i].vin[j];
            var origin := LastWith(Before(blocks, k, i), o.hash);
            && origin.Some?
            && o.n < |origin.value.tx.vout| && !origin.value.tx.vout[o.n].script.unspendable
            && (origin.value.tx.IsCoinBase() ==> k + 1 - origin.value.height >= p.maturity)
  {
    hide CoinsAfter, LastWith;
    var tx, items := blocks[k].txs[i], Before(blocks, k, i);
    PassesInChain(p, blocks, k, i);
    CoinsHaveOrigins(items);
    InputPasses(p, CoinsAfter(items).value, tx, k + 1, j);
  }

  lemma InputPasses(p: Params, v: View, tx: Tx, height: int, j: nat)
    requires Passes(p, v, tx, height) && !tx.IsCoinBase() && j < |tx.vin|
    ensures var o := tx.vin[j];
            && o.hash in v && v[o.hash].IsAvailable(o.n)
            && (v[o.hash].coinBase ==> height - v[o.hash].height >= p.maturity)
  {
    assert Get(v, tx.vin[j].hash).IsAvailable(tx.vin[j].n);
  }

  /** The txids of a chain are all different. */
  ghost predicate TxidsAreFresh(items: seq<Item>) {
    forall a, b :: 0 <= a < b < |items| ==> items[a].tx.hash != items[b].tx.hash
  }

  lemma {:induction false} LastIs(items: seq<Item>, a: nat)
    requires a < |items| && forall b :: a < b < |items| ==> items[b].tx.hash != items[a].tx.hash
    ensures LastWith(items, items[a].tx.hash) == Some(items[a])
  {
    if a < |items| - 1 {
      LastIs(items[..|items| - 1], a);
    }
  }

  lemma {:induction false} LastIsThere(items: seq<Item>, h: Hash) returns (a: nat)
    requires LastWith(items, h).Some?
    ensures a < |items| && items[a] == LastWith(items, h).value && items[a].tx.hash == h
  {
    if items[|items| - 1].tx.hash == h {
      a := |items| - 1;
    } else {
      a := LastIsThere(items[..|items| - 1], h);
    }
  }

  // ----- nothing is spent twice

  /** An outpoint that one of the transactions has spent, with no later one of its txid. */
  ghost predicate SpentFor(items: seq<Item>, o: OutPoint, a: nat) {
    && a < |items| && !items[a].tx.IsCoinBase() && o in items[a].tx.vin
    && forall b :: a <= b < |items| ==> items[b].tx.hash != o.hash
  }

  lemma SpendOneTakes(v: View, o: OutPoint)
    requires ProperView(v) && SpendOne(v, o).Some?
    ensures !Get(SpendOne(v, o).value.0, o.hash).IsAvailable(o.n)
  {
    SpendOneOutputs(v, o, o);
  }

  lemma {:induction false} SpendInputsTakes(v: View, vin: seq<OutPoint>, o: OutPoint)
    requires ProperView(v) && SpendInputs(v, vin).Some? && (o in vin || !Get(v, o.hash).IsAvailable(o.n))
    ensures !Get(SpendInputs(v, vin).value.0, o.hash).IsAvailable(o.n)
  {
    hide SpendOne, ProperView;
    if vin != [] {
      var last := |vin| - 1;
      var v1 := SpendInputs(v, vin[..last]).value.0;
      RestoreInputsUndoes(v, vin[..last]);
      SpendOneTakes(v1, vin[last]);
      if vin[last] != o {
        SpendInputsTakes(v, vin[..last], o);
        SpendOneElsewhere(v1, vin[last], o);
      }
    }
  }

  /** Every transaction can be undone step by step: heights above 0 and values that are amounts. */
  ghost predicate AreProper(items: seq<Item>) {
    forall a :: 0 <= a < |items| ==> ValuesAreValid(items[a].tx) && items[a].height != 0
  }

  lemma {:induction false} CoinsAreProper(items: seq<Item>)
    requires CoinsAfter(items).Some? && AreProper(items)
    ensures ProperView(CoinsAfter(items).value)
  {
    hide UpdateCoins, ProperView;
    if items == [] {
      EmptyIsProper();
    } else {
      var init, it := items[..|items| - 1], items[|items| - 1];
      CoinsAreProper(init);
      UpdateCoinsProper(CoinsAfter(init).value, it.tx, it.height);
    }
  }

  lemma EmptyIsProper()
    ensures ProperView(map[])
  {
  }

  lemma UpdateTakes(v: View, it: Item, o: OutPoint)
    requires ProperView(v) && UpdateCoins(v, it.tx, it.height).Some? && it.tx.hash != o.hash
    requires (!it.tx.IsCoinBase() && o in it.tx.vin) || !Get(v, o.hash).IsAvailable(o.n)
    ensures !Get(UpdateCoins(v, it.tx, it.height).value.0, o.hash).IsAvailable(o.n)
  {
    hide FromTx, SpendInputs, ProperView;
    if !it.tx.IsCoinBase() {
      SpendInputsTakes(v, it.tx.vin, o);
    }
  }

  /** What has been spent stays spent as long as its txid does not come again. */
  lemma {:induction false} SpentStaysSpent(items: seq<Item>, o: OutPoint, a: nat)
    requires CoinsAfter(items).Some? && AreProper(items) && SpentFor(items, o, a)
    ensures !Get(CoinsAfter(items).value, o.hash).IsAvailable(o.n)
  {
    hide UpdateCoins, ProperView;
    var init, it := items[..|items| - 1], items[|items| - 1];
    CoinsAreProper(init);
    if a < |init| {
      assert forall b :: a <= b < |init| ==> init[b] == items[b];
      SpentStaysSpent(init, o, a);
    }
    UpdateTakes(CoinsAfter(init).value, it, o);
  }

  lemma {:induction false} ItemsAreProper(p: Params, blocks: seq<BlockRecord>)
    requires p.halvingInterval > 0 && ChainIsValid(p, blocks)
    ensures AreProper(AllItems(blocks))
  {
    hide ConnectTxs, ValidBlock, ViewOf;
    if blocks != [] {
      var init, b := blocks[..|blocks| - 1], blocks[|blocks| - 1];
      ItemsAreProper(p, init);
      ValidMeans(p, ViewOf(init), b.txs, |blocks|);
      forall i | 0 <= i < |b.txs| ensures ValuesAreValid(b.txs[i]) {
        AllPassHaveValues(p, ViewOf(init), b.txs, |blocks|, i);
      }
    }
  }

  lemma BlockItemsAreProper(p: Params, blocks: seq<BlockRecord>, k: nat, i: nat)
    requires p.halvingInterval > 0 && ChainIsValid(p, blocks) && k < |blocks| && i <= |blocks[k].txs|
    ensures AreProper(Before(blocks, k, i))
  {
    hide ConnectTxs, ValidBlock, ViewOf;
    ChainPrefix(p, blocks, k);
    ChainPrefix(p, blocks, k + 1);
    ItemsAreProper(p, blocks[..k + 1]);
    ItemsAreProper(p, blocks[..k]);
    var all, some := AllItems(blocks[..k + 1]), Before(blocks, k, i);
    assert blocks[..k + 1][..k] == blocks[..k];
    forall a | 0 <= a < |some| ensures some[a] == all[a] {
    }
  }

  lemma NotSpentAgain(p: Params, blocks: seq<BlockRecord>, k: nat, i: nat, j: nat, a: nat)
    requires p.halvingInterval > 0 && ChainIsValid(p, blocks) && k < |blocks| && i < |blocks[k].txs|
    requires var tx := blocks[k].txs[i]; !tx.IsCoinBase() && j < |tx.vin|
    requires var items := Before(blocks, k, i);
             && TxidsAreFresh(items) && a < |items| && !items[a].tx.IsCoinBase()
             && LastWith(items[..a], blocks[k].txs[i].vin[j].hash).Some?
    ensures blocks[k].txs[i].vin[j] !in Before(blocks, k, i)[a].tx.vin
  {
    hide CoinsAfter, LastWith, ChainIsValid, Passes;
    var tx, items := blocks[k].txs[i], Before(blocks, k, i);
    var o := tx.vin[j];
    if o in items[a].tx.vin {
      var origin := LastIsThere(items[..a], o.hash);
      PassesInChain(p, blocks, k, i);
      BlockItemsAreProper(p, blocks, k, i);
      assert items[origin].tx.hash == o.hash;
      SpentStaysSpent(items, o, a);
      InputPasses(p, CoinsAfter(items).value, tx, k + 1, j);
      assert false;
    }
  }

  lemma {:induction false} AllItemsPrefix(blocks: seq<BlockRecord>, k: nat)
    requires k <= |blocks|
    ensures AllItems(blocks[..k]) <= AllItems(blocks)
    decreases |blocks|
  {
    if k == |blocks| {
      assert blocks[..k] == blocks;
    } else {
      AllItemsPrefix(blocks[..|blocks| - 1], k);
      assert blocks[..|blocks| - 1][..k] == blocks[..k];
    }
  }

  lemma ItIsThere(blocks: seq<BlockRecord>, k: nat, i: nat)
    requires k < |blocks| && i < |blocks[k].txs|
    ensures Before(blocks, k, i) + [Item(blocks[k].txs[i], k + 1)] <= AllItems(blocks)
  {
    AllItemsPrefix(blocks, k + 1);
    assert blocks[..k + 1][..k] == blocks[..k];
  }

  lemma EarlierInBlock(blocks: seq<BlockRecord>, k: nat, i1: nat, i2: nat)
    requires k < |blocks| && i1 < i2 <= |blocks[k].txs|
    ensures Before(blocks, k, i1) + [Item(blocks[k].txs[i1], k + 1)] <= Before(blocks, k, i2)
  {
    hide AllItems;
    var some, more := Items(blocks[k].txs[..i1], k + 1), Items(blocks[k].txs[..i2], k + 1);
    assert some + [Item(blocks[k].txs[i1], k + 1)] <= more;
  }

  lemma EarlierBlock(blocks: seq<BlockRecord>, k1: nat, i1: nat, k2: nat, i2: nat)
    requires k1 < k2 < |blocks| && i1 < |blocks[k1].txs| && i2 <= |blocks[k2].txs|
    ensures Before(blocks, k1, i1) + [Item(blocks[k1].txs[i1], k1 + 1)] <= Before(blocks, k2, i2)
  {
    hide AllItems;
    assert blocks[..k2][..k1] == blocks[..k1];
    ItIsThere(blocks[..k2], k1, i1);
  }

  /** An earlier transaction among those before a later one. */
  lemma EarlierIsBefore(blocks: seq<BlockRecord>, k1: nat, i1: nat, k2: nat, i2: nat)
    requires k1 < |blocks| && i1 < |blocks[k1].txs| && k2 < |blocks| && i2 < |blocks[k2].txs|
    requires k1 < k2 || (k1 == k2 && i1 < i2)
    ensures var a, later := |Before(blocks, k1, i1)|, Before(blocks, k2, i2);
            && a < |later| && later[..a] == Before(blocks, k1, i1) && later[a] == Item(blocks[k1].txs[i1], k1 + 1)
    ensures Before(blocks, k2, i2) <= AllItems(blocks)
  {
    hide Before, AllItems;
    ItIsThere(blocks, k2, i2);
    if k1 < k2 {
      EarlierBlock(blocks, k1, i1, k2, i2);
    } else {
      EarlierInBlock(blocks, k1, i1, i2);
    }
  }

  /** In a valid chain with fresh txids no output is spent twice: two inputs of the chain, other
      than a coinbase's, name different outputs. */
  lemma NothingIsSpentTwice(p: Params, blocks: seq<BlockRecord>,
                            k1: nat, i1: nat, j1: nat, k2: nat, i2: nat, j2: nat)
    requires p.halvingInterval > 0 && ChainIsValid(p, blocks) && TxidsAreFresh(AllItems(blocks))
    requires k1 < |blocks| && i1 < |blocks[k1].txs| && j1 < |blocks[k1].txs[i1].vin|
    requires k2 < |blocks| && i2 < |blocks[k2].txs| && j2 < |blocks[k2].txs[i2].vin|
    requires !blocks[k1].txs[i1].IsCoinBase() && !blocks[k2].txs[i2].IsCoinBase()
    requires k1 < k2 || (k1 == k2 && (i1 < i2 || (i1 == i2 && j1 < j2)))
    ensures blocks[k1].txs[i1].vin[j1] != blocks[k2].txs[i2].vin[j2]
  {
    hide ChainIsValid, LastWith, Before, AllItems;
    if k1 == k2 && i1 == i2 {
      InputsDiffer(p, blocks, k1, i1);
    } else if blocks[k1].txs[i1].vin[j1] == blocks[k2].txs[i2].vin[j2] {
      EarlierIsBefore(blocks, k1, i1, k2, i2);
      InputsAreMature(p, blocks, k1, i1, j1);
      NotSpentAgain(p, blocks, k2, i2, j2, |Before(blocks, k1, i1)|);
      assert false;
    }
  }

  lemma InputsDiffer(p: Params, blocks: seq<BlockRecord>, k: nat, i: nat)
    requires p.halvingInterval > 0 && ChainIsValid(p, blocks) && k < |blocks| && i < |blocks[k].txs|
    ensures Distinct(blocks[k].txs[i].vin)
  {
    hide ChainIsValid, CoinsAfter, CheckInputs;
    PassesInChain(p, blocks, k, i);
  }

  /** With fresh txids, in terms of the coinbase itself: who spends an output of the coinbase of
      height `g` does so at least `maturity` blocks later. */
  lemma CoinbasesMature(p: Params, blocks: seq<BlockRecord>, g: nat, k: nat, i: nat, j: nat)
    requires p.halvingInterval > 0 && ChainIsValid(p, blocks) && TxidsAreFresh(AllItems(blocks))
    requires k < |blocks| && i < |blocks[k].txs| && !blocks[k].txs[i].IsCoinBase() && j < |blocks[k].txs[i].vin|
    requires g < |blocks| && blocks[g].txs != [] && blocks[k].txs[i].vin[j].hash == blocks[g].txs[0].hash
    ensures blocks[g].txs[0].IsCoinBase() ==> k - g >= p.maturity
    ensures g < k || (g == k && i > 0)
  {
    hide ChainIsValid, LastWith, Before, AllItems;
    InputsAreMature(p, blocks, k, i, j);
    var o, items := blocks[k].txs[i].vin[j], Before(blocks, k, i);
    var a := LastIsThere(items, o.hash);
    ItIsThere(blocks, g, 0);
    ItIsThere(blocks, k, i);
    var at, here := |Before(blocks, g, 0)|, |items|;
    assert items[a] == AllItems(blocks)[a] && AllItems(blocks)[at] == Item(blocks[g].txs[0], g + 1);
    assert a == at && at < here;
    if g > k || (g == k && i == 0) {
      if g > k {
        EarlierIsBefore(blocks, k, i, g, 0);
      }
      assert false;
    }
  }

  // ----- the maturity limit is exact

  /** A transaction that moves the whole of a coinbase output passes if and only if the coinbase is
      mature. */
  lemma CoinbaseSpendPassesIff(p: Params, amount: nat, made: int, height: int)
    requires amount <= p.maxMoney && made != 0
    ensures var coinbase := Tx(1, 1, [NULL_OUTPOINT], [TxOut(amount, EMPTY_SCRIPT)]);
            var spend := Tx(2, 1, [OutPoint(1, 0)], [TxOut(amount, EMPTY_SCRIPT)]);
            && CoinsAfter([Item(coinbase, made)]).Some?
            && (Passes(p, CoinsAfter([Item(coinbase, made)]).value, spend, height) <==> height - made >= p.maturity)
  {
    var coinbase := Tx(1, 1, [NULL_OUTPOINT], [TxOut(amount, EMPTY_SCRIPT)]);
    var spend := Tx(2, 1, [OutPoint(1, 0)], [TxOut(amount, EMPTY_SCRIPT)]);
    var items := [Item(coinbase, made)];
    assert items[..0] == [] && CoinsAfter([]) == Some(map[]);
    var v := CoinsAfter(items).value;
    CreatedCoins(coinbase, made);
    CreatedOutputs(map[], coinbase, made, OutPoint(1, 0));
    assert OutputAt(v, OutPoint(1, 0)) == Some(TxOut(amount, EMPTY_SCRIPT));
    CoinsHaveOrigins(items);
    OneAmount(p, v, spend, amount);
  }

  lemma OneAmount(p: Params, v: View, tx: Tx, amount: nat)
    requires amount <= p.maxMoney
    requires tx == Tx(2, 1, [OutPoint(1, 0)], [TxOut(amount, EMPTY_SCRIPT)])
    requires OutputAt(v, OutPoint(1, 0)) == Some(TxOut(amount, EMPTY_SCRIPT))
    ensures CheckTransaction(p, tx) && !tx.IsCoinBase() && HaveInputs(v, tx.vin)
    ensures forall height :: CheckInputs(p, v, tx, height) <==>
              (Get(v, 1).coinBase ==> height - Get(v, 1).height >= p.maturity)
  {
    var o := OutPoint(1, 0);
    assert tx.vin[..0] == [] && tx.vin[..1] == tx.vin && tx.vout[..0] == [] && tx.vout[..1] == tx.vout;
    assert InputSum(v, []) == 0 && SumOuts(Amount, []) == 0;
    assert InputSum(v, tx.vin) == amount && SumOuts(Amount, tx.vout) == amount;
    assert tx.vin[0] == o;
  }
}
