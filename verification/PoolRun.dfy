/** Whole runs of a node: transactions enter and leave the pool, blocks are connected to the
    tip and the tip is disconnected (src/chain/txmempool.cpp, src/core/main.cpp). */
module PoolRun {
  import opened Common
  import opened Transactions
  import opened CoinSet
  import opened BlockUndo
  import opened MempoolState
  import opened Descendants
  import opened BlockRemoval
  import opened CoinOrigins
  import opened PoolAndChain
  import opened PoolReplay

  datatype Node = Node(pool: Pool, coins: View, chain: seq<BlockRecord>)

  const START := Node(EMPTY, map[], [])

  datatype Event =
    | Accepted(e: Entry)
    | Removed(orig: Tx, gone: set<Hash>)
    | Connected(txs: seq<Tx>, gone: set<Hash>)
    | Disconnected(block: seq<Entry>, passes: seq<bool>, pools: seq<Pool>)

  /** A block that can be connected. */
  ghost predicate Fits(id: Naming, n: Node, txs: seq<Tx>) {
    txs != [] && WellFormed(txs) && Named(id, txs) && ConnectTxs(n.coins, txs, |n.chain| + 1).Some?
  }

  /** One event. Under `id` every txid stands for one transaction. DisconnectTip goes on only if
      DisconnectBlock reports a clean rollback. */
  ghost predicate Step(id: Naming, n: Node, ev: Event, n': Node, indexed: bool) {
    match ev
    case Accepted(e) =>
      && CanAdd(n.pool, e) && HasInputs(n.pool, n.coins, e.tx)
      && ValuesAreValid(e.tx) && !e.tx.IsCoinBase() && id(e.tx.hash) == e.tx
      && Added(n.pool, e, n'.pool, indexed) && n' == n.(pool := n'.pool)
    case Removed(orig, gone) =>
      IsClosure(n.pool, Roots(n.pool, orig), gone) && n' == n.(pool := Without(n.pool, gone))
    case Connected(txs, gone) =>
      && Fits(id, n, txs) && RemovedForBlock(n.pool, txs, gone)
      && var (coins, undos) := ConnectTxs(n.coins, txs, |n.chain| + 1).value;
         n' == Node(Without(n.pool, gone), coins, n.chain + [BlockRecord(txs, undos)])
    case Disconnected(block, passes, pools) =>
      && n.chain != []
      && var b := n.chain[|n.chain| - 1];
         && Txs(block) == b.txs
         && DisconnectBlock(n.coins, b.txs, b.undos, |n.chain|) == Some((n'.coins, true))
         && Resurrects(n'.coins, block, passes, pools, indexed)
         && pools[0] == n.pool && n'.pool == pools[|block|]
         && n'.chain == n.chain[..|n.chain| - 1]
  }

  ghost predicate BlockFits(id: Naming, b: BlockRecord) {
    && b.txs != [] && WellFormed(b.txs) && |b.undos| == |b.txs| - 1
    && RecordFits(id, b.txs, b.undos)
  }

  /** The blocks of the chain and the coins under it. */
  ghost predicate ChainFits(id: Naming, coins: View, chain: seq<BlockRecord>) {
    && ProperView(coins) && CoinsNamed(id, coins)
    && forall k :: 0 <= k < |chain| ==> BlockFits(id, chain[k])
  }

  /** What CTxMemPool::check asserts of maps, marks, size and inputs, and the chain under it. */
  ghost predicate Inv(id: Naming, n: Node, indexed: bool) {
    && Valid(n.pool, indexed) && WereChecked(n.pool) && PoolNamed(id, n.pool)
    && Fed(n.pool, n.coins) && ChainFits(id, n.coins, n.chain)
  }

  lemma AddKeepsNamed(id: Naming, p: Pool, e: Entry, p': Pool, indexed: bool)
    requires PoolNamed(id, p) && Added(p, e, p', indexed) && id(e.tx.hash) == e.tx
    ensures PoolNamed(id, p')
  {
  }

  lemma WithoutKeepsNamed(id: Naming, p: Pool, gone: set<Hash>)
    requires PoolNamed(id, p)
    ensures PoolNamed(id, Without(p, gone))
  {
  }

  lemma AcceptedKeepsInv(id: Naming, n: Node, e: Entry, n': Node, indexed: bool)
    requires Inv(id, n, indexed) && Step(id, n, Accepted(e), n', indexed)
    ensures Inv(id, n', indexed)
  {
    hide Valid, WereChecked, Fed, PoolNamed, ChainFits, CanAdd, HasInputs, Added;
    AddKeepsValid(n.pool, e, n'.pool, indexed);
    AddKeepsFed(n.pool, n.coins, e, n'.pool, indexed);
    AddKeepsChecked(n.pool, e, n'.pool, indexed);
    AddKeepsNamed(id, n.pool, e, n'.pool, indexed);
  }

  lemma RemovedKeepsInv(id: Naming, n: Node, orig: Tx, gone: set<Hash>, n': Node, indexed: bool)
    requires Inv(id, n, indexed) && Step(id, n, Removed(orig, gone), n', indexed)
    ensures Inv(id, n', indexed)
  {
    hide Valid, WereChecked, Fed, PoolNamed, ChainFits, Without, Closed, Roots;
    WithoutKeepsValid(n.pool, gone, indexed);
    ClosedRemovalKeepsFed(n.pool, n.coins, gone);
    WithoutKeepsChecked(n.pool, gone);
    WithoutKeepsNamed(id, n.pool, gone);
  }

  lemma ConnectedKeepsInv(id: Naming, n: Node, txs: seq<Tx>, gone: set<Hash>, n': Node, indexed: bool)
    requires Inv(id, n, indexed) && Step(id, n, Connected(txs, gone), n', indexed)
    ensures Inv(id, n', indexed)
  {
    hide Valid, WereChecked, Fed, PoolNamed, Without, RemovedForBlock, ProperView, CoinsNamed, WellFormed, RecordFits,
      ConnectTxs;
    var height := |n.chain| + 1;
    WithoutKeepsValid(n.pool, gone, indexed);
    WithoutKeepsChecked(n.pool, gone);
    WithoutKeepsNamed(id, n.pool, gone);
    ConnectKeepsFed(id, n.pool, n.coins, txs, height, gone);
    ConnectTxsProper(n.coins, txs, height);
    ConnectNamed(id, n.coins, txs, height);
    ConnectFits(id, n.coins, txs, height);
  }

  lemma ValuesOf(block: seq<Entry>)
    requires WellFormed(Txs(block))
    ensures forall i :: 0 <= i < |block| ==> ValuesAreValid(block[i].tx)
  {
    forall i | 0 <= i < |block| ensures ValuesAreValid(block[i].tx) {
      assert Txs(block)[i] == block[i].tx;
    }
  }

  lemma {:induction false} ResurrectsKeepsNamed(id: Naming, v: View, block: seq<Entry>, passes: seq<bool>,
                                                pools: seq<Pool>, indexed: bool, k: nat)
    requires Resurrects(v, block, passes, pools, indexed) && k <= |block| && PoolNamed(id, pools[0])
    requires Named(id, Txs(block))
    ensures PoolNamed(id, pools[k])
  {
    hide PoolNamed, CanAdd, HasInputs, Added, Without, Roots, IsClosure;
    if k > 0 {
      ResurrectsKeepsNamed(id, v, block, passes, pools, indexed, k - 1);
      var p, e := pools[k - 1], block[k - 1];
      assert ResurrectStep(p, v, e, passes[k - 1], pools[k], indexed);
      assert Txs(block)[k - 1] == e.tx;
      if ComesBack(p, v, e, passes[k - 1]) {
        AddKeepsNamed(id, p, e, pools[k], indexed);
      } else {
        var gone :| IsClosure(p, Roots(p, e.tx), gone) && pools[k] == Without(p, gone);
        WithoutKeepsNamed(id, p, gone);
      }
    }
  }

  lemma RecordNames(id: Naming, txs: seq<Tx>, undos: seq<seq<Undo>>)
    requires RecordFits(id, txs, undos)
    ensures Named(id, txs)
  {
  }

  lemma DisconnectedKeepsInv(id: Naming, n: Node, block: seq<Entry>, passes: seq<bool>, pools: seq<Pool>, n': Node,
                             indexed: bool)
    requires Inv(id, n, indexed) && Step(id, n, Disconnected(block, passes, pools), n', indexed)
    ensures Inv(id, n', indexed)
  {
    hide Valid, WereChecked, Fed, FedOrWaits, PoolNamed, Named, Resurrects, ProperView, CoinsNamed, WellFormed, SameTxs,
      RecordFits, DisconnectTxs, Waits, IsCoin;
    var b, height, v := n.chain[|n.chain| - 1], |n.chain|, n'.coins;
    assert BlockFits(id, b);
    RecordNames(id, b.txs, b.undos);
    NamedOnce(id, b.txs);
    DisconnectFits(id, n.coins, b.txs, b.undos, height);
    ResurrectStarts(n.pool, n.coins, v, b.txs);
    ResurrectionLength(v, block, passes, pools, indexed);
    ResurrectsKeeps(v, block, passes, pools, indexed, |block|);
    ResurrectEnds(n'.pool, v, b.txs);
    ValuesOf(block);
    ResurrectsKeepsChecked(v, block, passes, pools, indexed, |block|);
    ResurrectsKeepsNamed(id, v, block, passes, pools, indexed, |block|);
  }

  lemma ResurrectionLength(v: View, block: seq<Entry>, passes: seq<bool>, pools: seq<Pool>, indexed: bool)
    requires Resurrects(v, block, passes, pools, indexed)
    ensures |pools| == |block| + 1
  {
  }

  /** The states of a run, one after each event. */
  ghost predicate IsRun(id: Naming, n: Node, evs: seq<Event>, nodes: seq<Node>, indexed: bool)
    requires |nodes| == |evs|
    decreases |evs|
  {
    evs == [] ||
    var last := |evs| - 1;
    && IsRun(id, n, evs[..last], nodes[..last], indexed)
    && Step(id, if last == 0 then n else nodes[last - 1], evs[last], nodes[last], indexed)
  }

  /** Whatever happens, the pool stays consistent with itself and with the coin set. */
  lemma {:induction false} RunKeepsInv(id: Naming, evs: seq<Event>, nodes: seq<Node>, indexed: bool)
    requires |nodes| == |evs| && IsRun(id, START, evs, nodes, indexed)
    ensures forall i :: 0 <= i < |nodes| ==> Inv(id, nodes[i], indexed)
    decreases |evs|
  {
    hide Inv, Step;
    if evs != [] {
      var last := |evs| - 1;
      RunKeepsInv(id, evs[..last], nodes[..last], indexed);
      StartInv(id, indexed);
      var n := if last == 0 then START else nodes[last - 1];
      assert Inv(id, n, indexed) by {
        if last > 0 {
          assert nodes[..last][last - 1] == n;
        }
      }
      StepKeepsInv(id, n, evs[last], nodes[last], indexed);
      forall i | 0 <= i < |nodes| ensures Inv(id, nodes[i], indexed) {
        if i < last {
          assert nodes[..last][i] == nodes[i];
        }
      }
    }
  }

  lemma StartInv(id: Naming, indexed: bool)
    ensures Inv(id, START, indexed)
  {
  }

  lemma StepKeepsInv(id: Naming, n: Node, ev: Event, n': Node, indexed: bool)
    requires Inv(id, n, indexed) && Step(id, n, ev, n', indexed)
    ensures Inv(id, n', indexed)
  {
    hide Inv, Step;
    match ev
    case Accepted(e) => AcceptedKeepsInv(id, n, e, n', indexed);
    case Removed(orig, gone) => RemovedKeepsInv(id, n, orig, gone, n', indexed);
    case Connected(txs, gone) => ConnectedKeepsInv(id, n, txs, gone, n', indexed);
    case Disconnected(block, passes, pools) => DisconnectedKeepsInv(id, n, block, passes, pools, n', indexed);
  }

  /** In every state of every run the whole pool can be applied to the coin set, in an order of
      dependence. */
  lemma PoolCanAlwaysBeReplayed(id: Naming, evs: seq<Event>, nodes: seq<Node>, indexed: bool, i: nat,
                                rank: Hash -> nat, height: int) returns (order: seq<Hash>)
    requires |nodes| == |evs| && IsRun(id, START, evs, nodes, indexed) && i < |nodes|
    requires Ranked(nodes[i].pool, rank) && height != 0
    ensures InOrder(nodes[i].pool, order) && Elements(order) == nodes[i].pool.txs.Keys
    ensures Replay(nodes[i].pool, nodes[i].coins, order, height).Some?
  {
    hide IsRun, InputsMarked, MarksUsed, SizeCounted, SpentAgrees, Fed, WereChecked, Ranked, ProperView, CoinsNamed,
      PoolNamed, Replay;
    RunKeepsInv(id, evs, nodes, indexed);
    order := PoolCanBeReplayed(nodes[i].pool, nodes[i].coins, rank, height);
  }
}
