/** The pool and the coin set of the active chain together: every input of a pool transaction
    is an output of another one, or an unspent coin. CTxMemPool::check asserts this before and
    after each block that ConnectTip and DisconnectTip (src/core/main.cpp) handle. */
module PoolAndChain {
  import opened Transactions
  import opened CoinSet
  import opened BlockUndo
  import opened CoinOrigins
  import opened MempoolState
  import opened Descendants
  import opened BlockRemoval

  /** CCoinsViewMemPool: coins of the pool hide those of the chain. */
  function PoolCoins(p: Pool, v: View, h: Hash): Coins {
    if h in p.txs then FromTx(p.txs[h].tx, MEMPOOL_HEIGHT) else Get(v, h)
  }

  predicate Available(p: Pool, v: View, o: OutPoint) {
    PoolCoins(p, v, o.hash).IsAvailable(o.n)
  }

  ghost predicate Fed(p: Pool, v: View) {
    forall o :: o in p.next ==> Available(p, v, o)
  }

  /** What AcceptToMemoryPool asks of the coins. */
  predicate HasInputs(p: Pool, v: View, tx: Tx) {
    tx.hash !in v && forall i :: 0 <= i < |tx.vin| ==> Available(p, v, tx.vin[i])
  }

  // ----- adding and removing

  lemma PoolOutput(p: Pool, v: View, o: OutPoint)
    requires o.hash in p.txs && Available(p, v, o)
    ensures IsPoolOutput(p, o)
  {
  }

  /** A set with all its descendants can go. */
  lemma ClosedRemovalKeepsFed(p: Pool, v: View, gone: set<Hash>)
    requires Fed(p, v) && Closed(p, gone)
    ensures Fed(Without(p, gone), v)
  {
    var q := Without(p, gone);
    forall o | o in q.next ensures Available(q, v, o) {
      if o.hash in gone && o.hash in p.txs {
        PoolOutput(p, v, o);
      }
    }
  }

  /** A transaction whose inputs are there can come in. */
  lemma AddKeepsFed(p: Pool, v: View, e: Entry, p': Pool, indexed: bool)
    requires Fed(p, v) && CanAdd(p, e) && HasInputs(p, v, e.tx) && Added(p, e, p', indexed)
    ensures Fed(p', v)
  {
    ResurrectAdds(p, v, [e.tx], 0, e, p', indexed);
    ResurrectEnds(p', v, [e.tx]);
  }

  // ----- connecting a block

  /** A txid stands for one transaction only. */
  ghost predicate SameTxs(txs: seq<Tx>) {
    forall i, j :: 0 <= i < |txs| && 0 <= j < |txs| && txs[i].hash == txs[j].hash ==> txs[i] == txs[j]
  }

  lemma NamedOnce(id: Naming, txs: seq<Tx>)
    requires Named(id, txs)
    ensures SameTxs(txs)
  {
  }

  ghost predicate PoolNamed(id: Naming, p: Pool) {
    forall h :: h in p.txs ==> id(h) == p.txs[h].tx
  }

  /** After a block has been connected and removeForBlock has cleared the pool, every pool
      transaction can still be spent from the new coin set. */
  lemma ConnectKeepsFed(id: Naming, p: Pool, v: View, txs: seq<Tx>, height: int, gone: set<Hash>)
    requires Fed(p, v) && ProperView(v) && ConnectTxs(v, txs, height).Some? && WellFormed(txs) && height != 0
    requires CoinsNamed(id, v) && Named(id, txs) && PoolNamed(id, p)
    requires RemovedForBlock(p, txs, gone)
    ensures Fed(Without(p, gone), ConnectTxs(v, txs, height).value.0)
  {
    var q, v' := Without(p, gone), ConnectTxs(v, txs, height).value.0;
    forall o | o in q.next ensures Available(q, v', o) {
      LeftIsUnspent(p, txs, gone, o);
      LeftIsFed(id, p, v, txs, height, gone, o);
    }
  }

  lemma LeftIsUnspent(p: Pool, txs: seq<Tx>, gone: set<Hash>, o: OutPoint)
    requires Cleared(p, txs, gone) && o in p.next && p.next[o].hash !in gone
    ensures forall i :: 0 <= i < |txs| ==> o !in txs[i].vin
  {
  }

  lemma LeftIsFed(id: Naming, p: Pool, v: View, txs: seq<Tx>, height: int, gone: set<Hash>, o: OutPoint)
    requires Available(p, v, o) && ProperView(v)
    requires ConnectTxs(v, txs, height).Some? && WellFormed(txs) && height != 0
    requires CoinsNamed(id, v) && Named(id, txs) && PoolNamed(id, p)
    requires NoOrphans(p, txs, gone) && o in p.next && p.next[o].hash !in gone
    requires forall i :: 0 <= i < |txs| ==> o !in txs[i].vin
    ensures Available(Without(p, gone), ConnectTxs(v, txs, height).value.0, o)
  {
    hide ConnectTxs, WellFormed, ProperView, FromTx, CoinsNamed;
    if o.hash !in p.txs {
      ConnectKeeps(id, v, txs, height, o);
    } else if o.hash in gone {
      PoolOutput(p, v, o);
      var k :| 0 <= k < |txs| && txs[k].hash == o.hash;
      ConnectMakes(id, v, txs, height, k, o);
    }
  }

  // ----- disconnecting a block

  /** What the resurrecting loop of DisconnectTip keeps, after `k` transactions. */
  ghost predicate FedOrWaits(p: Pool, v: View, txs: seq<Tx>, k: nat) {
    forall o :: o in p.next ==> Available(p, v, o) || (o.hash !in p.txs && Waits(txs, k, o))
  }

  /** Before the loop, with the coins already rolled back to `v`. */
  lemma ResurrectStarts(p: Pool, w: View, v: View, txs: seq<Tx>)
    requires Fed(p, w) && forall o :: IsCoin(w, o) ==> IsCoin(v, o) || Waits(txs, 0, o)
    ensures FedOrWaits(p, v, txs, 0)
  {
    hide FromTx, Waits;
    forall o | o in p.next ensures Available(p, v, o) || (o.hash !in p.txs && Waits(txs, 0, o)) {
      if o.hash !in p.txs {
        assert IsCoin(w, o);
      }
    }
  }

  /** One transaction comes back. */
  lemma ResurrectAdds(p: Pool, v: View, txs: seq<Tx>, k: nat, e: Entry, p': Pool, indexed: bool)
    requires k < |txs| && e.tx == txs[k] && FedOrWaits(p, v, txs, k) && SameTxs(txs)
    requires CanAdd(p, e) && HasInputs(p, v, e.tx) && Added(p, e, p', indexed)
    ensures FedOrWaits(p', v, txs, k + 1)
  {
    hide FromTx;
    forall o | o in p'.next ensures Available(p', v, o) || (o.hash !in p'.txs && Waits(txs, k + 1, o)) {
      if o in p.next {
        AddedStillFed(p, v, txs, k, e, p', indexed, o);
      } else {
        assert e.tx.vin[..|e.tx.vin|] == e.tx.vin;
        assert o in e.tx.vin;
        var i :| 0 <= i < |e.tx.vin| && e.tx.vin[i] == o;
        assert Available(p, v, e.tx.vin[i]);
      }
    }
  }

  lemma AddedStillFed(p: Pool, v: View, txs: seq<Tx>, k: nat, e: Entry, p': Pool, indexed: bool, o: OutPoint)
    requires k < |txs| && e.tx == txs[k] && SameTxs(txs)
    requires Available(p, v, o) || (o.hash !in p.txs && Waits(txs, k, o))
    requires e.tx.hash !in p.txs && e.tx.hash !in v && Added(p, e, p', indexed)
    ensures Available(p', v, o) || (o.hash !in p'.txs && Waits(txs, k + 1, o))
  {
    hide FromTx;
    if !Available(p, v, o) {
      var i :| k <= i < |txs| && Makes(txs[i], o);
      if o.hash == e.tx.hash {
        assert txs[i] == txs[k];
      } else {
        assert i != k;
      }
    }
  }

  /** It does not come back, and all that depends on it goes. */
  lemma ResurrectDrops(p: Pool, v: View, txs: seq<Tx>, k: nat, gone: set<Hash>)
    requires k < |txs| && FedOrWaits(p, v, txs, k) && MarksUsed(p)
    requires Closed(p, gone) && Contains(p, Roots(p, txs[k]), gone)
    ensures FedOrWaits(Without(p, gone), v, txs, k + 1)
  {
    hide FromTx, Waits;
    var q := Without(p, gone);
    forall o | o in q.next ensures Available(q, v, o) || (o.hash !in q.txs && Waits(txs, k + 1, o)) {
      if Available(p, v, o) {
        if o.hash in gone && o.hash in p.txs {
          PoolOutput(p, v, o);
        }
      } else {
        WaitsOn(p, txs, k, o, gone);
      }
    }
  }

  lemma WaitsOn(p: Pool, txs: seq<Tx>, k: nat, o: OutPoint, gone: set<Hash>)
    requires k < |txs| && o.hash !in p.txs && Waits(txs, k, o) && MarksUsed(p)
    requires Contains(p, Roots(p, txs[k]), gone) && o in p.next && p.next[o].hash !in gone
    ensures Waits(txs, k + 1, o)
  {
    var i :| k <= i < |txs| && Makes(txs[i], o);
    if i == k {
      assert false;
    }
  }

  /** The transactions of a block. */
  function Txs(block: seq<Entry>): (r: seq<Tx>)
    ensures |r| == |block| && forall i :: 0 <= i < |block| ==> r[i] == block[i].tx
  {
    seq(|block|, i requires 0 <= i < |block| => block[i].tx)
  }

  /** Whether AcceptToMemoryPool takes a transaction of a disconnected block. Its checks other
      than those of the pool together are `passes`. */
  ghost predicate ComesBack(p: Pool, v: View, e: Entry, passes: bool) {
    !e.tx.IsCoinBase() && passes && CanAdd(p, e) && HasInputs(p, v, e.tx)
  }

  /** One turn of the loop of DisconnectTip: the transaction is added, or else exactly it and
      its descendants go. */
  ghost predicate ResurrectStep(p: Pool, v: View, e: Entry, passes: bool, p': Pool, indexed: bool) {
    if ComesBack(p, v, e, passes) then Added(p, e, p', indexed)
    else exists gone :: IsClosure(p, Roots(p, e.tx), gone) && p' == Without(p, gone)
  }

  /** The pools that the loop goes through. */
  ghost predicate Resurrects(v: View, block: seq<Entry>, passes: seq<bool>, pools: seq<Pool>, indexed: bool) {
    && |pools| == |block| + 1 && |passes| == |block|
    && forall k :: 0 <= k < |block| ==> ResurrectStep(pools[k], v, block[k], passes[k], pools[k + 1], indexed)
  }

  lemma ResurrectStepKeeps(p: Pool, v: View, block: seq<Entry>, k: nat, passes: bool, p': Pool, indexed: bool)
    requires k < |block| && SameTxs(Txs(block))
    requires Valid(p, indexed) && FedOrWaits(p, v, Txs(block), k) && ResurrectStep(p, v, block[k], passes, p', indexed)
    ensures Valid(p', indexed) && FedOrWaits(p', v, Txs(block), k + 1)
  {
    hide InputsMarked, SizeCounted, SpentAgrees, FedOrWaits, SameTxs, CanAdd, HasInputs, Added, Without, Roots;
    if ComesBack(p, v, block[k], passes) {
      AddKeepsValid(p, block[k], p', indexed);
      ResurrectAdds(p, v, Txs(block), k, block[k], p', indexed);
    } else {
      var gone :| IsClosure(p, Roots(p, block[k].tx), gone) && p' == Without(p, gone);
      WithoutKeepsValid(p, gone, indexed);
      ResurrectDrops(p, v, Txs(block), k, gone);
    }
  }

  /** After the loop the pool is valid, and every input is there without the block. */
  lemma {:induction false} ResurrectsKeeps(v: View, block: seq<Entry>, passes: seq<bool>, pools: seq<Pool>,
                                           indexed: bool, k: nat)
    requires Resurrects(v, block, passes, pools, indexed) && SameTxs(Txs(block)) && k <= |block|
    requires Valid(pools[0], indexed) && FedOrWaits(pools[0], v, Txs(block), 0)
    ensures Valid(pools[k], indexed) && FedOrWaits(pools[k], v, Txs(block), k)
  {
    hide Valid, FedOrWaits, SameTxs, ResurrectStep;
    if k > 0 {
      ResurrectsKeeps(v, block, passes, pools, indexed, k - 1);
      ResurrectStepKeeps(pools[k - 1], v, block, k - 1, passes[k - 1], pools[k], indexed);
    }
  }

  lemma ResurrectEnds(p: Pool, v: View, txs: seq<Tx>)
    requires FedOrWaits(p, v, txs, |txs|)
    ensures Fed(p, v)
  {
  }
}
