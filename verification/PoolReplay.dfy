/** The second half of CTxMemPool::check (src/chain/txmempool.cpp): the whole pool can be
    applied to the coin set, one transaction after the other, in an order of dependence. */
module PoolReplay {
  import opened Common
  import opened Transactions
  import opened CoinSet
  import opened BlockUndo
  import opened MempoolState
  import opened Descendants
  import opened BlockRemoval
  import opened CoinOrigins
  import opened PoolAndChain

  /** What CheckTransaction and AcceptToMemoryPool have made sure of. */
  ghost predicate WereChecked(p: Pool) {
    forall h :: h in p.txs ==> ValuesAreValid(p.txs[h].tx) && !p.txs[h].tx.IsCoinBase()
  }

  lemma AddKeepsChecked(p: Pool, e: Entry, p': Pool, indexed: bool)
    requires WereChecked(p) && Added(p, e, p', indexed) && ValuesAreValid(e.tx) && !e.tx.IsCoinBase()
    ensures WereChecked(p')
  {
  }

  lemma WithoutKeepsChecked(p: Pool, gone: set<Hash>)
    requires WereChecked(p)
    ensures WereChecked(Without(p, gone))
  {
  }

  lemma {:induction false} ResurrectsKeepsChecked(v: View, block: seq<Entry>, passes: seq<bool>, pools: seq<Pool>,
                                                  indexed: bool, k: nat)
    requires Resurrects(v, block, passes, pools, indexed) && k <= |block| && WereChecked(pools[0])
    requires forall i :: 0 <= i < |block| ==> ValuesAreValid(block[i].tx)
    ensures WereChecked(pools[k])
  {
    hide WereChecked, CanAdd, HasInputs, Added, Without, Roots, IsClosure;
    if k > 0 {
      ResurrectsKeepsChecked(v, block, passes, pools, indexed, k - 1);
      var p, e := pools[k - 1], block[k - 1];
      assert ResurrectStep(p, v, e, passes[k - 1], pools[k], indexed);
      if ComesBack(p, v, e, passes[k - 1]) {
        AddKeepsChecked(p, e, pools[k], indexed);
      } else {
        var gone :| IsClosure(p, Roots(p, e.tx), gone) && pools[k] == Without(p, gone);
        WithoutKeepsChecked(p, gone);
      }
    }
  }

  /** A txid is a hash of what it spends, so spending goes up in some ranking. */
  ghost predicate Ranked(p: Pool, rank: Hash -> nat) {
    forall o :: o in p.next ==> rank(o.hash) < rank(p.next[o].hash)
  }

  /** The parents of `h` in the pool are all in `done`. */
  ghost predicate ParentsDone(p: Pool, h: Hash, done: set<Hash>) {
    forall o :: o in p.next && p.next[o].hash == h && o.hash in p.txs ==> o.hash in done
  }

  function Elements(order: seq<Hash>): set<Hash> {
    set h | h in order
  }

  /** Some pool transactions, each after its parents. */
  ghost predicate InOrder(p: Pool, order: seq<Hash>) {
    order == [] ||
    var init, last := order[..|order| - 1], order[|order| - 1];
    InOrder(p, init) && last in p.txs && last !in init && ParentsDone(p, last, Elements(init))
  }

  /** The coin set after they have been applied. */
  ghost function Replay(p: Pool, v: View, order: seq<Hash>, height: int): Option<View>
    requires InOrder(p, order)
  {
    if order == [] then Some(v)
    else
      match Replay(p, v, order[..|order| - 1], height)
      case None => None
      case Some(w) =>
        match UpdateCoins(w, p.txs[order[|order| - 1]].tx, height)
        case None => None
        case Some((w', _)) => Some(w')
  }

  /** The inputs of those still to come are there, except outputs of others still to come. */
  ghost predicate Ready(p: Pool, w: View, done: set<Hash>) {
    forall o :: o in p.next && p.next[o].hash !in done && (o.hash in p.txs ==> o.hash in done) ==>
      Get(w, o.hash).IsAvailable(o.n)
  }

  lemma ReadyAtStart(p: Pool, v: View)
    requires Fed(p, v)
    ensures Ready(p, v, {})
  {
    hide FromTx;
    forall o | o in p.next && o.hash !in p.txs ensures Get(v, o.hash).IsAvailable(o.n) {
      assert Available(p, v, o);
    }
  }

  /** The next transaction can spend what it wants. */
  lemma CanSpend(p: Pool, w: View, done: set<Hash>, h: Hash)
    requires InputsMarked(p) && h in p.txs && h !in done && ParentsDone(p, h, done) && Ready(p, w, done)
    ensures HaveInputs(w, p.txs[h].tx.vin) && Distinct(p.txs[h].tx.vin)
  {
    var vin := p.txs[h].tx.vin;
    forall i | 0 <= i < |vin| ensures vin[i] in p.next && p.next[vin[i]] == InPoint(h, i) {
    }
    forall i | 0 <= i < |vin| ensures Get(w, vin[i].hash).IsAvailable(vin[i].n) {
      assert p.next[vin[i]].hash == h;
    }
  }

  lemma NotAnInput(p: Pool, h: Hash, o: OutPoint)
    requires InputsMarked(p) && h in p.txs && o in p.next && p.next[o].hash != h
    ensures o !in p.txs[h].tx.vin
  {
  }

  /** Its inputs go, its outputs come, and all else stays available. */
  lemma ReadyGoesOn(p: Pool, v: View, w: View, done: set<Hash>, h: Hash, height: int)
    requires InputsMarked(p) && Fed(p, v) && ProperView(w) && Ready(p, w, done) && h in p.txs
    requires !p.txs[h].tx.IsCoinBase() && p.txs[h].tx.hash == h
    requires UpdateCoins(w, p.txs[h].tx, height).Some?
    ensures Ready(p, UpdateCoins(w, p.txs[h].tx, height).value.0, done + {h})
  {
    hide UpdateCoins, FromTx, InputsMarked, Get;
    var tx := p.txs[h].tx;
    var w' := UpdateCoins(w, tx, height).value.0;
    forall o | o in p.next && p.next[o].hash !in done + {h} && (o.hash in p.txs ==> o.hash in done + {h})
      ensures Get(w', o.hash).IsAvailable(o.n)
    {
      NotAnInput(p, h, o);
      if o.hash == h {
        assert Available(p, v, o);
        UpdateCoinsMakes(w, tx, height, o);
      } else {
        UpdateElsewhere(w, tx, height, o);
      }
    }
  }

  lemma UpdateElsewhere(w: View, tx: Tx, height: int, o: OutPoint)
    requires ProperView(w) && UpdateCoins(w, tx, height).Some? && !tx.IsCoinBase()
    requires o !in tx.vin && o.hash != tx.hash && Get(w, o.hash).IsAvailable(o.n)
    ensures Get(UpdateCoins(w, tx, height).value.0, o.hash).IsAvailable(o.n)
  {
    SpendInputsElsewhere(w, tx.vin, o);
  }

  lemma ElementsGrow(order: seq<Hash>, h: Hash)
    ensures Elements(order + [h]) == Elements(order) + {h}
  {
  }

  /** Any order of dependence works: the assertions in the loop of check cannot fail. */
  lemma {:induction false} ReplayWorks(p: Pool, v: View, order: seq<Hash>, height: int)
    requires InputsMarked(p) && Fed(p, v) && WereChecked(p) && ProperView(v) && height != 0
    requires InOrder(p, order)
    ensures Replay(p, v, order, height).Some?
    ensures ProperView(Replay(p, v, order, height).value)
    ensures Ready(p, Replay(p, v, order, height).value, Elements(order))
  {
    hide *;
    if order == [] {
      ReadyAtStart(p, v);
      NoElements();
      ReplayNothing(p, v, height);
    } else {
      var init, h := order[..|order| - 1], order[|order| - 1];
      OrderParts(p, order);
      ReplayWorks(p, v, init, height);
      ReplayStep(p, v, Replay(p, v, init, height).value, init, h, height);
      ReplayParts(p, v, order, height);
      assert order == init + [h];
    }
  }

  lemma OrderParts(p: Pool, order: seq<Hash>)
    requires InOrder(p, order) && order != []
    ensures var init, h := order[..|order| - 1], order[|order| - 1];
            InOrder(p, init) && h in p.txs && h !in init && ParentsDone(p, h, Elements(init))
  {
  }

  lemma ReplayNothing(p: Pool, v: View, height: int)
    ensures InOrder(p, []) && Replay(p, v, [], height) == Some(v)
  {
  }

  lemma ReplayParts(p: Pool, v: View, order: seq<Hash>, height: int)
    requires InOrder(p, order) && order != []
    requires InOrder(p, order[..|order| - 1]) && Replay(p, v, order[..|order| - 1], height).Some?
    requires order[|order| - 1] in p.txs
    requires UpdateCoins(Replay(p, v, order[..|order| - 1], height).value, p.txs[order[|order| - 1]].tx, height).Some?
    ensures Replay(p, v, order, height) ==
              Some(UpdateCoins(Replay(p, v, order[..|order| - 1], height).value,
                               p.txs[order[|order| - 1]].tx, height).value.0)
  {
    hide UpdateCoins, ParentsDone;
  }

  lemma NoElements()
    ensures Elements([]) == {}
  {
  }

  lemma ReplayStep(p: Pool, v: View, w: View, init: seq<Hash>, h: Hash, height: int)
    requires InputsMarked(p) && Fed(p, v) && WereChecked(p) && ProperView(w) && height != 0
    requires h in p.txs && h !in init && ParentsDone(p, h, Elements(init)) && Ready(p, w, Elements(init))
    ensures UpdateCoins(w, p.txs[h].tx, height).Some?
    ensures ProperView(UpdateCoins(w, p.txs[h].tx, height).value.0)
    ensures Ready(p, UpdateCoins(w, p.txs[h].tx, height).value.0, Elements(init + [h]))
  {
    hide Fed, ProperView, Ready, ParentsDone, HaveInputs, Distinct, SpendInputs;
    var tx := p.txs[h].tx;
    CanSpend(p, w, Elements(init), h);
    InputsCanBeSpent(w, tx.vin);
    UpdateCoinsProper(w, tx, height);
    ReadyGoesOn(p, v, w, Elements(init), h, height);
    ElementsGrow(init, h);
  }

  // ----- there is such an order

  lemma {:induction false} LowestLeft(rank: Hash -> nat, left: set<Hash>) returns (h: Hash)
    requires left != {}
    ensures h in left && forall x :: x in left ==> rank(h) <= rank(x)
    decreases |left|
  {
    h :| h in left;
    if left != {h} {
      assert |left - {h}| < |left|;
      var other := LowestLeft(rank, left - {h});
      if rank(other) < rank(h) {
        h := other;
      }
    }
  }

  lemma {:induction false} Complete(p: Pool, rank: Hash -> nat, order: seq<Hash>) returns (all: seq<Hash>)
    requires MarksUsed(p) && Ranked(p, rank) && InOrder(p, order) && Elements(order) <= p.txs.Keys
    ensures InOrder(p, all) && Elements(all) == p.txs.Keys
    decreases p.txs.Keys - Elements(order)
  {
    hide MarksUsed, InOrder;
    var left := p.txs.Keys - Elements(order);
    if left == {} {
      forall h | h in p.txs ensures h in Elements(order) {
        assert h !in left;
      }
      all := order;
    } else {
      var h := LowestLeft(rank, left);
      LowestIsNext(p, rank, order, h);
      ElementsGrow(order, h);
      all := Complete(p, rank, order + [h]);
    }
  }

  lemma LowestIsNext(p: Pool, rank: Hash -> nat, order: seq<Hash>, h: Hash)
    requires Ranked(p, rank) && InOrder(p, order) && h in p.txs && h !in order
    requires forall x :: x in p.txs && x !in order ==> rank(h) <= rank(x)
    ensures InOrder(p, order + [h])
  {
    var longer := order + [h];
    assert longer[..|longer| - 1] == order && longer[|longer| - 1] == h;
    forall o | o in p.next && p.next[o].hash == h && o.hash in p.txs ensures o.hash in Elements(order) {
      assert rank(o.hash) < rank(h);
    }
  }

  /** The whole pool can be applied to the coin set it is consistent with. */
  lemma PoolCanBeReplayed(p: Pool, v: View, rank: Hash -> nat, height: int) returns (order: seq<Hash>)
    requires InputsMarked(p) && MarksUsed(p) && Fed(p, v) && WereChecked(p) && Ranked(p, rank)
    requires ProperView(v) && height != 0
    ensures InOrder(p, order) && Elements(order) == p.txs.Keys
    ensures Replay(p, v, order, height).Some?
  {
    hide InputsMarked, MarksUsed, Fed, WereChecked, Ranked, ProperView, Replay;
    NoElements();
    order := Complete(p, rank, []);
    ReplayWorks(p, v, order, height);
  }
}
