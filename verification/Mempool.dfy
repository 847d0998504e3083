/** What the memory pool holds (src/chain/txmempool.h, src/chain/txmempool.cpp), as a value:
    the invariant that CTxMemPool::check states, and what adding and removing do to it. */
module MempoolState {
  import opened Common
  import opened Transactions
  import opened MapSums

  /** A pool transaction and its serialized size. */
  datatype Entry = Entry(tx: Tx, size: nat)

  /** A transaction by its txid, and an index into its inputs. */
  datatype InPoint = InPoint(hash: Hash, n: nat)

  /** mapTx, mapNextTx, totalTxSize, mapSpent and mapSpentInserted. Of a spent-index value only
      the spending transaction and input are kept. */
  datatype Pool = Pool(
    txs: map<Hash, Entry>,
    next: map<OutPoint, InPoint>,
    total: int,
    spent: map<OutPoint, InPoint>,
    spentBy: map<Hash, seq<OutPoint>>)

  const EMPTY := Pool(map[], map[], 0, map[], map[])

  function SizeOf(): (Hash, Entry) -> int {
    (h: Hash, e: Entry) => e.size
  }

  // ----- the invariant

  /** Every input of a pool transaction is marked with it. */
  ghost predicate InputsMarked(p: Pool) {
    forall h :: h in p.txs ==>
      && p.txs[h].tx.hash == h
      && forall i :: 0 <= i < |p.txs[h].tx.vin| ==>
           p.txs[h].tx.vin[i] in p.next && p.next[p.txs[h].tx.vin[i]] == InPoint(h, i)
  }

  /** Every mark belongs to an input of a pool transaction. */
  ghost predicate MarksUsed(p: Pool) {
    forall o :: o in p.next ==>
      && p.next[o].hash in p.txs
      && p.next[o].n < |p.txs[p.next[o].hash].tx.vin|
      && p.txs[p.next[o].hash].tx.vin[p.next[o].n] == o
  }

  ghost predicate SizeCounted(p: Pool) {
    p.total == Sum(SizeOf(), p.txs)
  }

  /** With the spent index on, it says the same as the marks; with it off, it is empty. */
  ghost predicate SpentAgrees(p: Pool, indexed: bool) {
    if indexed
    then p.spent == p.next && p.spentBy.Keys == p.txs.Keys
         && forall h :: h in p.txs ==> p.spentBy[h] == p.txs[h].tx.vin
    else p.spent == map[] && p.spentBy == map[]
  }

  ghost predicate Valid(p: Pool, indexed: bool) {
    InputsMarked(p) && MarksUsed(p) && SizeCounted(p) && SpentAgrees(p, indexed)
  }

  // ----- adding

  /** What AcceptToMemoryPool makes sure of before it adds a transaction. */
  ghost predicate CanAdd(p: Pool, e: Entry) {
    && e.tx.hash !in p.txs
    && (forall i :: 0 <= i < |e.tx.vin| ==> e.tx.vin[i] !in p.next)
    && Distinct(e.tx.vin)
  }

  /** The marks for the first `k` inputs. */
  ghost predicate Marked(m: map<OutPoint, InPoint>, m': map<OutPoint, InPoint>, tx: Tx, k: nat)
    requires k <= |tx.vin|
  {
    && (forall o :: o in m' <==> o in m || o in tx.vin[..k])
    && (forall o :: o in m && o !in tx.vin[..k] ==> m'[o] == m[o])
    && (forall i :: 0 <= i < k ==> tx.vin[i] in m' && m'[tx.vin[i]] == InPoint(tx.hash, i))
  }

  /** `p'` is `p` with the transaction added. */
  ghost predicate Added(p: Pool, e: Entry, p': Pool, indexed: bool) {
    && p'.txs == p.txs[e.tx.hash := e]
    && Marked(p.next, p'.next, e.tx, |e.tx.vin|)
    && p'.total == p.total + e.size
    && (if indexed
        then Marked(p.spent, p'.spent, e.tx, |e.tx.vin|) && p'.spentBy == p.spentBy[e.tx.hash := e.tx.vin]
        else p'.spent == p.spent && p'.spentBy == p.spentBy)
  }

  lemma SameMarks(m: map<OutPoint, InPoint>, a: map<OutPoint, InPoint>, b: map<OutPoint, InPoint>, tx: Tx)
    requires Marked(m, a, tx, |tx.vin|) && Marked(m, b, tx, |tx.vin|)
    ensures a == b
  {
    assert tx.vin[..|tx.vin|] == tx.vin;
    forall o | o in a ensures o in b && a[o] == b[o] {
      if o in tx.vin {
        var i :| 0 <= i < |tx.vin| && tx.vin[i] == o;
      }
    }
  }

  lemma AddKeepsMarks(p: Pool, e: Entry, p': Pool, indexed: bool)
    requires InputsMarked(p) && MarksUsed(p) && CanAdd(p, e) && Added(p, e, p', indexed)
    ensures InputsMarked(p') && MarksUsed(p')
  {
    assert e.tx.vin[..|e.tx.vin|] == e.tx.vin;
    forall h | h in p'.txs
      ensures p'.txs[h].tx.hash == h
      ensures forall i :: 0 <= i < |p'.txs[h].tx.vin| ==>
                p'.txs[h].tx.vin[i] in p'.next && p'.next[p'.txs[h].tx.vin[i]] == InPoint(h, i)
    {
      if h != e.tx.hash {
        forall i | 0 <= i < |p.txs[h].tx.vin|
          ensures p.txs[h].tx.vin[i] in p'.next && p'.next[p.txs[h].tx.vin[i]] == InPoint(h, i)
        {
          assert p.txs[h].tx.vin[i] in p.next;
        }
      }
    }
    forall o | o in p'.next
      ensures p'.next[o].hash in p'.txs
      ensures p'.next[o].n < |p'.txs[p'.next[o].hash].tx.vin|
      ensures p'.txs[p'.next[o].hash].tx.vin[p'.next[o].n] == o
    {
      if o in e.tx.vin {
        var i :| 0 <= i < |e.tx.vin| && e.tx.vin[i] == o;
      }
    }
  }

  /** A guarded add keeps the invariant. */
  lemma AddKeepsValid(p: Pool, e: Entry, p': Pool, indexed: bool)
    requires Valid(p, indexed) && CanAdd(p, e) && Added(p, e, p', indexed)
    ensures Valid(p', indexed)
  {
    AddKeepsMarks(p, e, p', indexed);
    SumWrite(SizeOf(), p.txs, e.tx.hash, e);
    if indexed {
      SameMarks(p.next, p'.next, p'.spent, e.tx);
    }
  }

  // ----- removing

  /** The pool without some transactions, as if they had never been there. */
  ghost function Without(p: Pool, gone: set<Hash>): Pool {
    Pool(p.txs - gone,
         map o | o in p.next && p.next[o].hash !in gone :: p.next[o],
         Sum(SizeOf(), p.txs - gone),
         map o | o in p.spent && p.spent[o].hash !in gone :: p.spent[o],
         p.spentBy - gone)
  }

  lemma WithoutKeepsValid(p: Pool, gone: set<Hash>, indexed: bool)
    requires Valid(p, indexed)
    ensures Valid(Without(p, gone), indexed)
  {
    var p' := Without(p, gone);
    forall h | h in p'.txs
      ensures forall i :: 0 <= i < |p'.txs[h].tx.vin| ==>
                p'.txs[h].tx.vin[i] in p'.next && p'.next[p'.txs[h].tx.vin[i]] == InPoint(h, i)
    {
      assert h in p.txs && h !in gone;
    }
    if indexed {
      assert p'.spent == p'.next;
    }
  }

  lemma WithoutTwice(p: Pool, a: set<Hash>, b: set<Hash>)
    ensures Without(Without(p, a), b) == Without(p, a + b)
  {
    assert p.txs - a - b == p.txs - (a + b);
    assert p.spentBy - a - b == p.spentBy - (a + b);
  }

  lemma WithoutNothing(p: Pool, indexed: bool)
    requires Valid(p, indexed)
    ensures Without(p, {}) == p
  {
    assert p.txs - {} == p.txs;
    assert p.spentBy - {} == p.spentBy;
  }

  /** What the loop body of remove erases for one transaction. */
  function EraseOne(p: Pool, h: Hash): Pool
    requires h in p.txs
  {
    var vin := p.txs[h].tx.vin;
    Pool(p.txs - {h},
         p.next - (set o | o in vin),
         p.total - p.txs[h].size,
         if h in p.spentBy then p.spent - (set o | o in p.spentBy[h]) else p.spent,
         p.spentBy - {h})
  }

  /** In a valid pool that takes out the transaction and nothing else. */
  lemma EraseOneIs(p: Pool, h: Hash, indexed: bool)
    requires Valid(p, indexed) && h in p.txs
    ensures EraseOne(p, h) == Without(p, {h})
  {
    var vin := p.txs[h].tx.vin;
    SumRemove(SizeOf(), p.txs, h);
    EraseMarksIs(p, h);
    if indexed {
      assert p.spentBy[h] == vin;
    } else {
      assert Without(p, {h}).spent == p.spent;
    }
  }

  lemma EraseMarksIs(p: Pool, h: Hash)
    requires InputsMarked(p) && MarksUsed(p) && h in p.txs
    ensures p.next - (set o | o in p.txs[h].tx.vin) == Without(p, {h}).next
  {
    var vin := p.txs[h].tx.vin;
    forall o | o in p.next ensures o in vin <==> p.next[o].hash == h {
      if o in vin {
        var i :| 0 <= i < |vin| && vin[i] == o;
      }
    }
  }
}
