/** Lemmas for removals that are made one after the other, and the pool object itself. */
module BlockRemoval {
  import opened Transactions
  import opened MempoolState
  import opened Descendants

  /** Where a removal starts. */
  ghost function Roots(p: Pool, orig: Tx): set<Hash> {
    if orig.hash in p.txs then {orig.hash}
    else set o | o in p.next && o.hash == orig.hash && o.n < |orig.vout| :: p.next[o].hash
  }

  /** The pool transactions, other than `tx` itself, that spend one of the first `k` inputs of `tx`. */
  ghost function Conflicts(p: Pool, tx: Tx, k: nat): set<Hash>
    requires k <= |tx.vin|
  {
    set o | o in tx.vin[..k] && o in p.next && p.next[o].hash != tx.hash :: p.next[o].hash
  }

  lemma ConflictsGrow(p: Pool, tx: Tx, k: nat)
    requires k < |tx.vin|
    ensures Conflicts(p, tx, k + 1) == Conflicts(p, tx, k) +
              if tx.vin[k] in p.next && p.next[tx.vin[k]].hash != tx.hash then {p.next[tx.vin[k]].hash} else {}
  {
    assert tx.vin[..k + 1] == tx.vin[..k] + [tx.vin[k]];
  }

  lemma ConflictsOf(p: Pool, tx: Tx, k: nat, o: OutPoint)
    requires k <= |tx.vin| && o in tx.vin[..k] && o in p.next && p.next[o].hash != tx.hash
    ensures p.next[o].hash in Conflicts(p, tx, k)
  {
  }

  /** A conflict that is already gone changes nothing. */
  lemma ConflictIsGone(p: Pool, tx: Tx, k: nat, gone: set<Hash>)
    requires k < |tx.vin| && IsClosure(p, Conflicts(p, tx, k), gone)
    requires tx.vin[k] in Without(p, gone).next ==> Without(p, gone).next[tx.vin[k]].hash == tx.hash
    ensures IsClosure(p, Conflicts(p, tx, k + 1), gone)
  {
    ConflictsGrow(p, tx, k);
    forall t | Contains(p, Conflicts(p, tx, k + 1), t) && Closed(p, t) ensures gone <= t {
      assert Contains(p, Conflicts(p, tx, k), t);
    }
  }

  lemma ConflictGoes(p: Pool, tx: Tx, k: nat, gone: set<Hash>, more: set<Hash>)
    requires k < |tx.vin| && IsClosure(p, Conflicts(p, tx, k), gone)
    requires tx.vin[k] in Without(p, gone).next && Without(p, gone).next[tx.vin[k]].hash != tx.hash
    requires IsClosure(Without(p, gone), {Without(p, gone).next[tx.vin[k]].hash}, more)
    ensures IsClosure(p, Conflicts(p, tx, k + 1), gone + more)
  {
    ConflictsGrow(p, tx, k);
    ClosuresCompose(p, Conflicts(p, tx, k), gone, {p.next[tx.vin[k]].hash}, more);
  }

  // ----- a whole block

  /** The txids of a list of transactions. */
  ghost function Hashes(txs: seq<Tx>): set<Hash> {
    set i | 0 <= i < |txs| :: txs[i].hash
  }

  /** A set that contains every pool transaction which conflicts with the block. */
  ghost predicate HoldsConflicts(p: Pool, vtx: seq<Tx>, t: set<Hash>) {
    forall i :: 0 <= i < |vtx| ==> Conflicts(p, vtx[i], |vtx[i].vin|) <= t
  }

  /** Only what is in the block, or depends on a conflict with it, is lost. */
  ghost predicate NothingElseLost(p: Pool, vtx: seq<Tx>, gone: set<Hash>) {
    forall t :: HoldsConflicts(p, vtx, t) && Closed(p, t) ==> gone <= Hashes(vtx) + t
  }

  /** What is left spends no output of a removed transaction that is not in the block. */
  ghost predicate NoOrphans(p: Pool, vtx: seq<Tx>, gone: set<Hash>) {
    forall o :: o in p.next && o.hash in gone && o.hash !in Hashes(vtx) && IsPoolOutput(p, o) ==>
      p.next[o].hash in gone
  }

  /** No pool transaction left is in the block or spends what the block has spent. */
  ghost predicate Cleared(p: Pool, vtx: seq<Tx>, gone: set<Hash>) {
    forall i :: 0 <= i < |vtx| ==>
      && (vtx[i].hash in p.txs ==> vtx[i].hash in gone)
      && forall o :: o in vtx[i].vin && o in p.next ==> p.next[o].hash in gone
  }

  ghost predicate RemovedForBlock(p: Pool, vtx: seq<Tx>, gone: set<Hash>) {
    && gone <= p.txs.Keys
    && NothingElseLost(p, vtx, gone)
    && NoOrphans(p, vtx, gone)
    && Cleared(p, vtx, gone)
  }

  lemma HashesGrow(vtx: seq<Tx>, tx: Tx)
    ensures Hashes(vtx + [tx]) == Hashes(vtx) + {tx.hash}
  {
    var all := vtx + [tx];
    forall h | h in Hashes(vtx) + {tx.hash} ensures h in Hashes(all) {
      if h == tx.hash {
        assert all[|vtx|].hash == h;
      } else {
        var i :| 0 <= i < |vtx| && vtx[i].hash == h;
        assert all[i].hash == h;
      }
    }
  }

  /** One more transaction of the block: it goes itself, then the closure of its conflicts. */
  lemma BlockGoesOn(p: Pool, vtx: seq<Tx>, tx: Tx, gone: set<Hash>, gone1: set<Hash>, more: set<Hash>)
    requires MarksUsed(p) && RemovedForBlock(p, vtx, gone)
    requires gone1 == gone + ({tx.hash} * p.txs.Keys)
    requires IsClosure(Without(p, gone1), Conflicts(Without(p, gone1), tx, |tx.vin|), more)
    ensures RemovedForBlock(p, vtx + [tx], gone1 + more)
  {
    hide NothingElseLost, NoOrphans, Cleared;
    LostGoesOn(p, vtx, tx, gone, gone1, more);
    OrphansGoOn(p, vtx, tx, gone, gone1, more);
    ClearedGoesOn(p, vtx, tx, gone, gone1, more);
  }

  lemma LostGoesOn(p: Pool, vtx: seq<Tx>, tx: Tx, gone: set<Hash>, gone1: set<Hash>, more: set<Hash>)
    requires NothingElseLost(p, vtx, gone)
    requires gone1 == gone + ({tx.hash} * p.txs.Keys)
    requires IsClosure(Without(p, gone1), Conflicts(Without(p, gone1), tx, |tx.vin|), more)
    ensures NothingElseLost(p, vtx + [tx], gone1 + more)
  {
    var all, q := vtx + [tx], Without(p, gone1);
    HashesGrow(vtx, tx);
    forall t | HoldsConflicts(p, all, t) && Closed(p, t) ensures gone1 + more <= Hashes(all) + t {
      forall i | 0 <= i < |vtx| ensures Conflicts(p, vtx[i], |vtx[i].vin|) <= t {
        assert all[i] == vtx[i];
      }
      assert HoldsConflicts(p, vtx, t);
      assert Conflicts(p, all[|vtx|], |tx.vin|) <= t;
      LeftIsClosed(p, gone1, t);
      assert Conflicts(q, tx, |tx.vin|) <= Conflicts(p, tx, |tx.vin|);
      assert Contains(q, Conflicts(q, tx, |tx.vin|), t - gone1);
    }
  }

  lemma OrphansGoOn(p: Pool, vtx: seq<Tx>, tx: Tx, gone: set<Hash>, gone1: set<Hash>, more: set<Hash>)
    requires NoOrphans(p, vtx, gone)
    requires gone1 == gone + ({tx.hash} * p.txs.Keys)
    requires more <= Without(p, gone1).txs.Keys && Closed(Without(p, gone1), more)
    ensures NoOrphans(p, vtx + [tx], gone1 + more)
  {
    var all, q := vtx + [tx], Without(p, gone1);
    HashesGrow(vtx, tx);
    forall o | o in p.next && o.hash in gone1 + more && o.hash !in Hashes(all) && IsPoolOutput(p, o)
      ensures p.next[o].hash in gone1 + more
    {
      if o.hash in more && p.next[o].hash !in gone1 {
        assert o in q.next && IsPoolOutput(q, o);
      }
    }
  }

  lemma ClearedGoesOn(p: Pool, vtx: seq<Tx>, tx: Tx, gone: set<Hash>, gone1: set<Hash>, more: set<Hash>)
    requires MarksUsed(p) && Cleared(p, vtx, gone)
    requires gone1 == gone + ({tx.hash} * p.txs.Keys)
    requires Contains(Without(p, gone1), Conflicts(Without(p, gone1), tx, |tx.vin|), more)
    ensures Cleared(p, vtx + [tx], gone1 + more)
  {
    var all, q := vtx + [tx], Without(p, gone1);
    forall i | 0 <= i < |all|
      ensures all[i].hash in p.txs ==> all[i].hash in gone1 + more
      ensures forall o :: o in all[i].vin && o in p.next ==> p.next[o].hash in gone1 + more
    {
      if i < |vtx| {
        assert all[i] == vtx[i];
      } else {
        forall o | o in tx.vin && o in p.next ensures p.next[o].hash in gone1 + more {
          assert p.next[o].hash in p.txs;
          if p.next[o].hash !in gone1 {
            assert o in q.next && tx.vin[..|tx.vin|] == tx.vin;
            ConflictsOf(q, tx, |tx.vin|, o);
          }
        }
      }
    }
  }

  /** When the block is consistent with the pool - no block transaction depends on a conflict -
      the removal takes out exactly the block and the descendants of the conflicts. */
  lemma ConsistentBlock(p: Pool, vtx: seq<Tx>, gone: set<Hash>, conflicting: set<Hash>)
    requires MarksUsed(p) && RemovedForBlock(p, vtx, gone)
    requires conflicting <= p.txs.Keys && HoldsConflicts(p, vtx, conflicting) && Closed(p, conflicting)
    requires forall t :: HoldsConflicts(p, vtx, t) && Closed(p, t) ==> conflicting <= t
    requires conflicting !! Hashes(vtx)
    ensures gone == Hashes(vtx) * p.txs.Keys + conflicting
  {
    forall h | h in Hashes(vtx) * p.txs.Keys ensures h in gone {
    }
    var kept := conflicting * gone;
    forall i | 0 <= i < |vtx| ensures Conflicts(p, vtx[i], |vtx[i].vin|) <= kept {
      assert vtx[i].vin[..|vtx[i].vin|] == vtx[i].vin;
    }
    forall o | o in p.next && o.hash in kept && IsPoolOutput(p, o) ensures p.next[o].hash in kept {
    }
    assert conflicting <= kept;
  }
}

/** The pool object (src/chain/txmempool.cpp). */
module TxMemPool {
  import opened Common
  import opened Transactions
  import opened CoinSet
  import opened PoolAndChain
  import opened MempoolState
  import opened Descendants
  import opened BlockRemoval

  /** Each transaction of the list was in the pool, and none is listed twice. */
  ghost predicate ListsOnce(p: Pool, txs: seq<Tx>) {
    && (forall i :: 0 <= i < |txs| ==> txs[i].hash in p.txs && p.txs[txs[i].hash].tx == txs[i])
    && forall i, j :: 0 <= i < j < |txs| ==> txs[i].hash != txs[j].hash
  }

  lemma ListGrows(p: Pool, txs: seq<Tx>, h: Hash)
    requires InputsMarked(p) && ListsOnce(p, txs) && h in p.txs && h !in Hashes(txs)
    ensures ListsOnce(p, txs + [p.txs[h].tx])
    ensures Hashes(txs + [p.txs[h].tx]) == Hashes(txs) + {h}
  {
    HashesGrow(txs, p.txs[h].tx);
  }

  /** The work that remove starts with. */
  lemma WorkStarts(p: Pool, orig: Tx, work: seq<Hash>)
    requires MarksUsed(p)
    requires work == [orig.hash] + if orig.hash in p.txs then [] else Spenders(p.next, orig.hash, |orig.vout|)
    ensures Working(p, Roots(p, orig), {}, work)
  {
    if orig.hash !in p.txs {
      var n := |orig.vout|;
      forall h | h in Roots(p, orig) ensures h in work {
        var o :| o in p.next && o.hash == orig.hash && o.n < n && p.next[o].hash == h;
        assert o == OutPoint(orig.hash, o.n);
        SpenderIsListed(p.next, orig.hash, n, o.n);
      }
      forall h | h in work && h in p.txs ensures h in Roots(p, orig) {
        ListedIsSpender(p.next, orig.hash, n, h);
      }
    }
    assert Needed(p, Roots(p, orig), {}, work) by {
      forall t | Contains(p, Roots(p, orig), t) && Closed(p, t)
        ensures forall h :: h in work && h in p.txs ==> h in t
      {
        forall h | h in work && h in p.txs ensures h in t {
          assert h in Roots(p, orig);
        }
      }
    }
  }

  /** Marks for the first `k` inputs of a transaction, later ones winning. */
  function MarkAll(m: map<OutPoint, InPoint>, tx: Tx, k: nat): map<OutPoint, InPoint>
    requires k <= |tx.vin|
  {
    if k == 0 then m else MarkAll(m, tx, k - 1)[tx.vin[k - 1] := InPoint(tx.hash, k - 1)]
  }

  /** The same with map::insert, earlier ones winning. */
  function InsertAll(m: map<OutPoint, InPoint>, tx: Tx, k: nat): map<OutPoint, InPoint>
    requires k <= |tx.vin|
  {
    if k == 0 then m
    else
      var m1 := InsertAll(m, tx, k - 1);
      if tx.vin[k - 1] in m1 then m1 else m1[tx.vin[k - 1] := InPoint(tx.hash, k - 1)]
  }

  lemma MarkedNone(m: map<OutPoint, InPoint>, tx: Tx)
    ensures Marked(m, m, tx, 0)
  {
  }

  lemma MarkedGrows(m: map<OutPoint, InPoint>, m1: map<OutPoint, InPoint>, tx: Tx, k: nat)
    requires k < |tx.vin| && Distinct(tx.vin) && Marked(m, m1, tx, k)
    ensures Marked(m, m1[tx.vin[k] := InPoint(tx.hash, k)], tx, k + 1)
  {
    assert tx.vin[..k + 1] == tx.vin[..k] + [tx.vin[k]];
  }

  lemma MarkedIsNew(m: map<OutPoint, InPoint>, m1: map<OutPoint, InPoint>, tx: Tx, k: nat)
    requires k < |tx.vin| && Distinct(tx.vin) && Marked(m, m1, tx, k) && tx.vin[k] !in m
    ensures tx.vin[k] !in m1
  {
  }

  /** On new and distinct inputs both do the same. */
  lemma {:induction false} MarkAllMarks(m: map<OutPoint, InPoint>, tx: Tx, k: nat)
    requires k <= |tx.vin| && Distinct(tx.vin) && forall i :: 0 <= i < |tx.vin| ==> tx.vin[i] !in m
    ensures Marked(m, MarkAll(m, tx, k), tx, k)
    ensures InsertAll(m, tx, k) == MarkAll(m, tx, k)
  {
    hide Distinct, Marked;
    if k == 0 {
      MarkedNone(m, tx);
    } else {
      MarkAllMarks(m, tx, k - 1);
      MarkedGrows(m, MarkAll(m, tx, k - 1), tx, k - 1);
      MarkedIsNew(m, MarkAll(m, tx, k - 1), tx, k - 1);
    }
  }

  /** What the loop of remove keeps: `q` is the pool now, `p` the pool it started on. */
  ghost predicate Removing(p: Pool, q: Pool, orig: Tx, recursive: bool, indexed: bool, work: seq<Hash>,
                           removed: seq<Tx>) {
    && Valid(p, indexed) && q == Without(p, Hashes(removed)) && ListsOnce(p, removed)
    && if recursive then Working(p, Roots(p, orig), Hashes(removed), work)
       else if work == [] then Hashes(removed) == {orig.hash} * p.txs.Keys
       else work == [orig.hash] && removed == []
  }

  lemma RemovingStarts(p: Pool, orig: Tx, recursive: bool, indexed: bool, work: seq<Hash>)
    requires Valid(p, indexed)
    requires work == [orig.hash] +
               if recursive && orig.hash !in p.txs then Spenders(p.next, orig.hash, |orig.vout|) else []
    ensures Removing(p, p, orig, recursive, indexed, work, [])
  {
    assert Hashes([]) == {};
    WithoutNothing(p, indexed);
    if recursive {
      WorkStarts(p, orig, work);
    }
  }

  lemma RemovingSkips(p: Pool, q: Pool, orig: Tx, recursive: bool, indexed: bool, work: seq<Hash>, removed: seq<Tx>)
    requires Removing(p, q, orig, recursive, indexed, work, removed) && work != [] && work[0] !in q.txs
    ensures Removing(p, q, orig, recursive, indexed, work[1..], removed)
  {
    if recursive {
      WorkSkips(p, Roots(p, orig), Hashes(removed), work);
    }
  }

  lemma RemovingTakes(p: Pool, q: Pool, orig: Tx, recursive: bool, indexed: bool, work: seq<Hash>, removed: seq<Tx>,
                      rest: seq<Hash>)
    requires Removing(p, q, orig, recursive, indexed, work, removed) && work != [] && work[0] in q.txs
    requires rest == work[1..] + if recursive then Spenders(q.next, work[0], |q.txs[work[0]].tx.vout|) else []
    ensures Removing(p, EraseOne(q, work[0]), orig, recursive, indexed, rest, removed + [q.txs[work[0]].tx])
  {
    hide Valid, Working, ListsOnce, Without;
    var h := work[0];
    StillIn(p, Hashes(removed), h, indexed);
    TakenIs(p, removed, h, indexed);
    if recursive {
      WorkTakes(p, Roots(p, orig), Hashes(removed), work, rest);
    }
  }

  lemma StillIn(p: Pool, gone: set<Hash>, h: Hash, indexed: bool)
    requires Valid(p, indexed) && h in Without(p, gone).txs
    ensures h in p.txs && h !in gone && Without(p, gone).txs[h] == p.txs[h] && InputsMarked(p)
  {
  }

  lemma TakenIs(p: Pool, removed: seq<Tx>, h: Hash, indexed: bool)
    requires Valid(p, indexed) && ListsOnce(p, removed) && h in p.txs && h !in Hashes(removed)
    ensures h in Without(p, Hashes(removed)).txs
    ensures EraseOne(Without(p, Hashes(removed)), h) == Without(p, Hashes(removed + [p.txs[h].tx]))
    ensures Hashes(removed + [p.txs[h].tx]) == Hashes(removed) + {h}
    ensures ListsOnce(p, removed + [p.txs[h].tx])
  {
    hide Without, Valid;
    ghost var q := Without(p, Hashes(removed));
    InWithout(p, Hashes(removed), h, indexed);
    WithoutKeepsValid(p, Hashes(removed), indexed);
    EraseOneIs(q, h, indexed);
    ListGrows(p, removed, h);
    WithoutTwice(p, Hashes(removed), {h});
  }

  lemma InWithout(p: Pool, gone: set<Hash>, h: Hash, indexed: bool)
    requires Valid(p, indexed) && h in p.txs && h !in gone
    ensures h in Without(p, gone).txs && InputsMarked(p)
  {
  }

  lemma RemovingEnds(p: Pool, q: Pool, orig: Tx, recursive: bool, indexed: bool, removed: seq<Tx>)
    requires Removing(p, q, orig, recursive, indexed, [], removed)
    ensures Valid(q, indexed) && q == Without(p, Hashes(removed)) && ListsOnce(p, removed)
    ensures recursive ==> IsClosure(p, Roots(p, orig), Hashes(removed))
    ensures !recursive ==> Hashes(removed) == {orig.hash} * p.txs.Keys
  {
    WithoutKeepsValid(p, Hashes(removed), indexed);
    if recursive {
      WorkEnds(p, Roots(p, orig), Hashes(removed));
    }
  }

  lemma EraseShrinks(q: Pool, h: Hash)
    requires h in q.txs
    ensures EraseOne(q, h).txs.Keys < q.txs.Keys
  {
  }

  lemma SpentIsNext(p: Pool, indexed: bool, h: Hash)
    requires Valid(p, indexed) && h !in p.txs
    ensures indexed ==> p.spent == p.next && h !in p.spentBy
  {
  }

  // ----- what the loop of removeConflicts keeps

  ghost predicate InConflict(p: Pool, q: Pool, tx: Tx, k: nat, indexed: bool, found: seq<Tx>)
    requires k <= |tx.vin|
  {
    && Valid(p, indexed) && q == Without(p, Hashes(found)) && ListsOnce(p, found)
    && IsClosure(p, Conflicts(p, tx, k), Hashes(found))
    && Valid(q, indexed)
  }

  lemma ConflictsStart(p: Pool, tx: Tx, indexed: bool)
    requires Valid(p, indexed)
    ensures InConflict(p, p, tx, 0, indexed, [])
  {
    assert Hashes([]) == {} && Conflicts(p, tx, 0) == {};
    WithoutNothing(p, indexed);
  }

  lemma MarkIsUsed(p: Pool, indexed: bool, o: OutPoint)
    requires Valid(p, indexed) && o in p.next
    ensures p.next[o].hash in p.txs
    ensures Roots(p, p.txs[p.next[o].hash].tx) == {p.next[o].hash}
  {
  }

  lemma ConflictPasses(p: Pool, q: Pool, tx: Tx, k: nat, indexed: bool, found: seq<Tx>)
    requires k < |tx.vin| && InConflict(p, q, tx, k, indexed, found)
    requires tx.vin[k] in q.next ==> q.next[tx.vin[k]].hash == tx.hash
    ensures InConflict(p, q, tx, k + 1, indexed, found)
  {
    hide Valid, Without, ListsOnce, IsClosure, Conflicts, Hashes;
    ConflictIsGone(p, tx, k, Hashes(found));
  }

  /** Lists that were made one after the other. */
  lemma ListsJoin(p: Pool, a: seq<Tx>, b: seq<Tx>)
    requires ListsOnce(p, a) && ListsOnce(Without(p, Hashes(a)), b)
    ensures ListsOnce(p, a + b) && Hashes(a + b) == Hashes(a) + Hashes(b)
  {
    HashesJoin(a, b);
  }

  lemma ConflictTaken(p: Pool, q: Pool, q': Pool, tx: Tx, k: nat, indexed: bool, found: seq<Tx>, more: seq<Tx>)
    requires k < |tx.vin| && InConflict(p, q, tx, k, indexed, found)
    requires tx.vin[k] in q.next && q.next[tx.vin[k]].hash != tx.hash
    requires Valid(q', indexed) && q' == Without(q, Hashes(more)) && ListsOnce(q, more)
    requires IsClosure(q, {q.next[tx.vin[k]].hash}, Hashes(more))
    ensures InConflict(p, q', tx, k + 1, indexed, found + more)
  {
    hide Valid, Without, ListsOnce, IsClosure, Conflicts, Hashes;
    ConflictGoes(p, tx, k, Hashes(found), Hashes(more));
    ListsJoin(p, found, more);
    WithoutTwice(p, Hashes(found), Hashes(more));
  }

  lemma ConflictsEnd(p: Pool, q: Pool, tx: Tx, indexed: bool, found: seq<Tx>)
    requires InConflict(p, q, tx, |tx.vin|, indexed, found)
    ensures Valid(q, indexed) && q == Without(p, Hashes(found)) && ListsOnce(p, found)
    ensures IsClosure(p, Conflicts(p, tx, |tx.vin|), Hashes(found))
  {
    hide Valid, Without, ListsOnce, IsClosure, Conflicts, Hashes;
  }

  // ----- what the loop of removeForBlock keeps

  /** The transactions that a removal has taken out. */
  ghost function Gone(p: Pool, q: Pool): set<Hash> {
    p.txs.Keys - q.txs.Keys
  }

  ghost predicate InBlock(p: Pool, q: Pool, vtx: seq<Tx>, indexed: bool, gone: set<Hash>, conflicts: seq<Tx>) {
    && Valid(p, indexed) && q == Without(p, gone) && Valid(q, indexed)
    && RemovedForBlock(p, vtx, gone)
    && gone == Hashes(conflicts) + Hashes(vtx) * p.txs.Keys
  }

  lemma BlockStarts(p: Pool, indexed: bool)
    requires Valid(p, indexed)
    ensures InBlock(p, p, [], indexed, {}, [])
  {
    assert Hashes([]) == {};
    WithoutNothing(p, indexed);
  }

  lemma BlockTakes(p: Pool, q: Pool, q1: Pool, q2: Pool, vtx: seq<Tx>, tx: Tx, indexed: bool, gone: set<Hash>,
                   before: seq<Tx>, dummy: seq<Tx>, more: seq<Tx>)
    requires InBlock(p, q, vtx, indexed, gone, before)
    requires q1 == Without(q, Hashes(dummy)) && Hashes(dummy) == {tx.hash} * q.txs.Keys
    requires q2 == Without(q1, Hashes(more)) && Valid(q2, indexed)
    requires IsClosure(q1, Conflicts(q1, tx, |tx.vin|), Hashes(more))
    ensures InBlock(p, q2, vtx + [tx], indexed, gone + Hashes(dummy) + Hashes(more), before + more)
  {
    hide Valid, Without, IsClosure, RemovedForBlock, Conflicts, Hashes;
    KeysLeft(p, gone, indexed);
    var gone1 := gone + ({tx.hash} * p.txs.Keys);
    assert gone + Hashes(dummy) == gone1;
    WithoutTwice(p, gone, Hashes(dummy));
    WithoutTwice(p, gone1, Hashes(more));
    BlockGoesOn(p, vtx, tx, gone, gone1, Hashes(more));
    HashesGrow(vtx, tx);
    HashesJoin(before, more);
  }

  lemma KeysLeft(p: Pool, gone: set<Hash>, indexed: bool)
    requires Valid(p, indexed)
    ensures Without(p, gone).txs.Keys == p.txs.Keys - gone
    ensures MarksUsed(p)
  {
  }

  lemma HashesJoin(a: seq<Tx>, b: seq<Tx>)
    ensures Hashes(a + b) == Hashes(a) + Hashes(b)
  {
    var all := a + b;
    forall h | h in Hashes(a) + Hashes(b) ensures h in Hashes(all) {
      if h in Hashes(a) {
        var i :| 0 <= i < |a| && a[i].hash == h;
        assert all[i].hash == h;
      } else {
        var i :| 0 <= i < |b| && b[i].hash == h;
        assert all[|a| + i].hash == h;
      }
    }
  }

  lemma BlockEnds(p: Pool, q: Pool, vtx: seq<Tx>, indexed: bool, gone: set<Hash>, conflicts: seq<Tx>)
    requires InBlock(p, q, vtx, indexed, gone, conflicts)
    ensures Valid(q, indexed) && Gone(p, q) == gone && q == Without(p, gone)
    ensures RemovedForBlock(p, vtx, gone)
    ensures gone == Hashes(conflicts) + Hashes(vtx) * p.txs.Keys
    ensures forall i :: 0 <= i < |vtx| ==> vtx[i].hash !in q.txs && forall o :: o in vtx[i].vin ==> o !in q.next
  {
    KeysLeft(p, gone, indexed);
    ClearedMeans(p, vtx, gone);
  }

  lemma ClearedMeans(p: Pool, vtx: seq<Tx>, gone: set<Hash>)
    requires Cleared(p, vtx, gone)
    ensures forall i :: 0 <= i < |vtx| ==>
              vtx[i].hash !in Without(p, gone).txs && forall o :: o in vtx[i].vin ==> o !in Without(p, gone).next
  {
  }

  class TxMemPool {
    var txs: map<Hash, Entry>
    var next: map<OutPoint, InPoint>
    var total: int
    var spent: map<OutPoint, InPoint>
    var spentBy: map<Hash, seq<OutPoint>>
    const indexed: bool

    function Maps(): Pool
      reads this
    {
      Pool(txs, next, total, spent, spentBy)
    }

    constructor (indexed: bool)
      ensures Maps() == EMPTY && this.indexed == indexed && Valid(Maps(), indexed)
    {
      txs, next, total, spent, spentBy := map[], map[], 0, map[], map[];
      this.indexed := indexed;
    }

    /** addUnchecked. */
    method AddUnchecked(e: Entry)
      modifies this
      ensures Maps() == old(Maps()).(
                txs := old(txs)[e.tx.hash := e], next := MarkAll(old(next), e.tx, |e.tx.vin|),
                total := old(total) + e.size)
    {
      txs := txs[e.tx.hash := e];
      for i := 0 to |e.tx.vin|
        invariant next == MarkAll(old(next), e.tx, i)
        invariant Maps() == old(Maps()).(txs := txs, next := next)
        invariant txs == old(txs)[e.tx.hash := e]
      {
        next := next[e.tx.vin[i] := InPoint(e.tx.hash, i)];
      }
      total := total + e.size;
    }

    /** addSpentIndex. */
    method AddSpentIndex(tx: Tx)
      modifies this
      ensures Maps() == old(Maps()).(
                spent := InsertAll(old(spent), tx, |tx.vin|),
                spentBy := if tx.hash in old(spentBy) then old(spentBy) else old(spentBy)[tx.hash := tx.vin])
    {
      var inserted: seq<OutPoint> := [];
      for j := 0 to |tx.vin|
        invariant inserted == tx.vin[..j]
        invariant spent == InsertAll(old(spent), tx, j)
        invariant Maps() == old(Maps()).(spent := spent)
      {
        if tx.vin[j] !in spent {
          spent := spent[tx.vin[j] := InPoint(tx.hash, j)];
        }
        inserted := inserted + [tx.vin[j]];
      }
      assert tx.vin[..|tx.vin|] == tx.vin;
      if tx.hash !in spentBy {
        spentBy := spentBy[tx.hash := inserted];
      }
    }

    /** The pool's part of AcceptToMemoryPool over the coin set `v`. All its other checks
        together are `passes`. */
    method Accept(e: Entry, v: View, passes: bool) returns (ok: bool)
      requires Valid(Maps(), indexed)
      modifies this
      ensures ok <==> passes && CanAdd(old(Maps()), e) && HasInputs(old(Maps()), v, e.tx)
      ensures if ok then Added(old(Maps()), e, Maps(), indexed) else Maps() == old(Maps())
      ensures Valid(Maps(), indexed)
    {
      hide Valid, Marked, MarkAll, InsertAll, Available;
      if !Distinct(e.tx.vin) || !passes || e.tx.hash in txs {
        return false;
      }
      for i := 0 to |e.tx.vin|
        invariant forall k :: 0 <= k < i ==> e.tx.vin[k] !in next
      {
        if e.tx.vin[i] in next {
          return false;
        }
      }
      if !HasInputs(Maps(), v, e.tx) {
        return false;
      }
      MarkAllMarks(next, e.tx, |e.tx.vin|);
      SpentIsNext(Maps(), indexed, e.tx.hash);
      ghost var p := Maps();
      AddUnchecked(e);
      if indexed {
        AddSpentIndex(e.tx);
      }
      AddKeepsValid(p, e, Maps(), indexed);
      return true;
    }

    /** The loop that lists the spenders of the outputs of a transaction. */
    method PushSpenders(work: seq<Hash>, h: Hash, n: nat) returns (work': seq<Hash>)
      ensures work' == work + Spenders(next, h, n)
    {
      work' := work;
      for i := 0 to n
        invariant work' == work + Spenders(next, h, i)
      {
        if OutPoint(h, i) in next {
          work' := work' + [next[OutPoint(h, i)].hash];
        }
      }
    }

    /** removeSpentIndex. */
    method RemoveSpentIndex(h: Hash)
      modifies this
      ensures Maps() == old(Maps()).(
                spent := if h in old(spentBy) then old(spent) - (set o | o in old(spentBy)[h]) else old(spent),
                spentBy := old(spentBy) - {h})
    {
      if h in spentBy {
        var keys := spentBy[h];
        for i := 0 to |keys|
          invariant spent == old(spent) - (set o | o in keys[..i])
          invariant Maps() == old(Maps()).(spent := spent)
        {
          spent := spent - {keys[i]};
          assert keys[..i + 1] == keys[..i] + [keys[i]];
        }
        assert keys[..|keys|] == keys;
      } else {
        assert spentBy - {h} == spentBy;
      }
      spentBy := spentBy - {h};
    }

    /** What the loop of remove does to the maps for one transaction. */
    method Erase(h: Hash)
      requires h in txs
      modifies this
      ensures Maps() == EraseOne(old(Maps()), h)
    {
      var tx := txs[h].tx;
      for i := 0 to |tx.vin|
        invariant next == old(next) - (set o | o in tx.vin[..i])
        invariant Maps() == old(Maps()).(next := next)
      {
        next := next - {tx.vin[i]};
        assert tx.vin[..i + 1] == tx.vin[..i] + [tx.vin[i]];
      }
      assert tx.vin[..|tx.vin|] == tx.vin;
      total := total - txs[h].size;
      txs := txs - {h};
      RemoveSpentIndex(h);
    }

    /** remove: exactly the transaction and all its descendants go, each listed once. */
    method Remove(orig: Tx, recursive: bool) returns (removed: seq<Tx>)
      requires Valid(Maps(), indexed)
      modifies this
      ensures Valid(Maps(), indexed)
      ensures Maps() == Without(old(Maps()), Hashes(removed))
      ensures ListsOnce(old(Maps()), removed)
      ensures recursive ==> IsClosure(old(Maps()), Roots(old(Maps()), orig), Hashes(removed))
      ensures !recursive ==> Hashes(removed) == {orig.hash} * old(txs).Keys
    {
      hide Removing, Valid, Without, EraseOne, ListsOnce, IsClosure, Roots, Spenders, Hashes;
      ghost var p := Maps();
      removed := [];
      var work := [orig.hash];
      if recursive && orig.hash !in txs {
        work := PushSpenders(work, orig.hash, |orig.vout|);
      }
      RemovingStarts(p, orig, recursive, indexed, work);
      while work != []
        invariant Removing(p, Maps(), orig, recursive, indexed, work, removed)
        decreases txs.Keys, |work|
      {
        var h := work[0];
        if h !in txs {
          RemovingSkips(p, Maps(), orig, recursive, indexed, work, removed);
          work := work[1..];
        } else {
          var rest := work[1..];
          if recursive {
            rest := PushSpenders(rest, h, |txs[h].tx.vout|);
          }
          RemovingTakes(p, Maps(), orig, recursive, indexed, work, removed, rest);
          EraseShrinks(Maps(), h);
          removed := removed + [txs[h].tx];
          Erase(h);
          work := rest;
        }
      }
      RemovingEnds(p, Maps(), orig, recursive, indexed, removed);
    }

    /** removeConflicts: the other spenders of the inputs of `tx` go, with all their descendants. */
    method RemoveConflicts(tx: Tx, removed: seq<Tx>) returns (removed': seq<Tx>)
      requires Valid(Maps(), indexed)
      modifies this
      ensures Valid(Maps(), indexed)
      ensures removed <= removed'
      ensures Maps() == Without(old(Maps()), Hashes(removed'[|removed|..]))
      ensures ListsOnce(old(Maps()), removed'[|removed|..])
      ensures IsClosure(old(Maps()), Conflicts(old(Maps()), tx, |tx.vin|), Hashes(removed'[|removed|..]))
    {
      hide Valid, Without, ListsOnce, IsClosure, Roots, Conflicts, Hashes;
      ghost var p := Maps();
      ghost var found: seq<Tx> := [];
      removed' := removed;
      ConflictsStart(p, tx, indexed);
      for k := 0 to |tx.vin|
        invariant removed' == removed + found
        invariant InConflict(p, Maps(), tx, k, indexed, found)
      {
        if tx.vin[k] in next && next[tx.vin[k]].hash != tx.hash {
          MarkIsUsed(Maps(), indexed, tx.vin[k]);
          ghost var q := Maps();
          var more := Remove(txs[next[tx.vin[k]].hash].tx, true);
          removed' := removed' + more;
          ConflictTaken(p, q, Maps(), tx, k, indexed, found, more);
          found := found + more;
        } else {
          ConflictPasses(p, Maps(), tx, k, indexed, found);
        }
      }
      assert removed'[|removed|..] == found;
      ConflictsEnd(p, Maps(), tx, indexed, found);
    }

    /** removeForBlock: its transactions go, then all that conflicts with them. */
    method RemoveForBlock(vtx: seq<Tx>) returns (conflicts: seq<Tx>)
      requires Valid(Maps(), indexed)
      modifies this
      ensures Valid(Maps(), indexed)
      ensures Maps() == Without(old(Maps()), Gone(old(Maps()), Maps()))
      ensures RemovedForBlock(old(Maps()), vtx, Gone(old(Maps()), Maps()))
      ensures Gone(old(Maps()), Maps()) == Hashes(conflicts) + Hashes(vtx) * old(txs).Keys
      ensures forall i :: 0 <= i < |vtx| ==> vtx[i].hash !in txs && forall o :: o in vtx[i].vin ==> o !in next
    {
      hide Valid, Without, ListsOnce, IsClosure, RemovedForBlock, Conflicts, Hashes;
      ghost var p := Maps();
      ghost var gone: set<Hash> := {};
      conflicts := [];
      BlockStarts(p, indexed);
      for k := 0 to |vtx|
        invariant InBlock(p, Maps(), vtx[..k], indexed, gone, conflicts)
      {
        ghost var q := Maps();
        ghost var before := conflicts;
        var dummy := Remove(vtx[k], false);
        ghost var q1 := Maps();
        conflicts := RemoveConflicts(vtx[k], conflicts);
        BlockTakes(p, q, q1, Maps(), vtx[..k], vtx[k], indexed, gone, before, dummy, conflicts[|before|..]);
        assert conflicts == before + conflicts[|before|..];
        assert vtx[..k + 1] == vtx[..k] + [vtx[k]];
        gone := gone + Hashes(dummy) + Hashes(conflicts[|before|..]);
      }
      assert vtx[..|vtx|] == vtx;
      BlockEnds(p, Maps(), vtx, indexed, gone, conflicts);
    }

    /** The loop of DisconnectTip that brings the transactions of a disconnected block back, or
        else removes what depends on them. `v` is the coin set without the block, and `pools`
        what the pool has been after each turn. */
    method Resurrect(block: seq<Entry>, v: View, passes: seq<bool>) returns (ghost pools: seq<Pool>)
      requires |passes| == |block| && Valid(Maps(), indexed)
      modifies this
      ensures Valid(Maps(), indexed)
      ensures Resurrects(v, block, passes, pools, indexed)
      ensures pools[0] == old(Maps()) && pools[|block|] == Maps()
    {
      hide Valid, ResurrectStep;
      pools := [Maps()];
      for k := 0 to |block|
        invariant Valid(Maps(), indexed) && |pools| == k + 1
        invariant pools[0] == old(Maps()) && pools[k] == Maps()
        invariant forall i :: 0 <= i < k ==> ResurrectStep(pools[i], v, block[i], passes[i], pools[i + 1], indexed)
      {
        TryAgain(block[k], v, passes[k]);
        pools := pools + [Maps()];
      }
    }

    method TryAgain(e: Entry, v: View, passes: bool)
      requires Valid(Maps(), indexed)
      modifies this
      ensures Valid(Maps(), indexed)
      ensures ResurrectStep(old(Maps()), v, e, passes, Maps(), indexed)
    {
      hide Valid, Without, ListsOnce, IsClosure, Roots, Hashes, CanAdd, HasInputs, Added;
      var ok := false;
      if !e.tx.IsCoinBase() {
        ok := Accept(e, v, passes);
      }
      if !ok {
        var removed := Remove(e.tx, true);
      }
    }
  }
}
