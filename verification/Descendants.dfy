/** Which pool transactions depend on which: the descendants of some transactions, as the
    smallest set that is closed under spending, and the worklist that computes it. */
module Descendants {
  import opened Transactions
  import opened MempoolState

  /** The outpoint is an output of a pool transaction. */
  predicate IsPoolOutput(p: Pool, o: OutPoint) {
    o.hash in p.txs && o.n < |p.txs[o.hash].tx.vout|
  }

  /** Whoever spends an output of a member is a member. */
  ghost predicate Closed(p: Pool, s: set<Hash>) {
    forall o :: o in p.next && o.hash in s && IsPoolOutput(p, o) ==> p.next[o].hash in s
  }

  ghost predicate Contains(p: Pool, roots: set<Hash>, s: set<Hash>) {
    roots * p.txs.Keys <= s
  }

  /** `s` is exactly the pool transactions among `roots` with all their in-pool descendants. */
  ghost predicate IsClosure(p: Pool, roots: set<Hash>, s: set<Hash>) {
    && s <= p.txs.Keys
    && Contains(p, roots, s)
    && Closed(p, s)
    && forall t :: Contains(p, roots, t) && Closed(p, t) ==> s <= t
  }

  // ----- the same, said with paths of spends

  /** Each transaction on the path spends an output of the one before it. */
  ghost predicate IsPath(p: Pool, path: seq<OutPoint>, from: Hash, to: Hash) {
    if path == [] then from == to && to in p.txs
    else
      var last := path[|path| - 1];
      && last in p.next && p.next[last].hash == to
      && IsPoolOutput(p, last)
      && IsPath(p, path[..|path| - 1], from, last.hash)
  }

  ghost predicate IsDescendant(p: Pool, roots: set<Hash>, h: Hash) {
    exists path, from :: from in roots && IsPath(p, path, from, h)
  }

  lemma {:induction false} PathStaysIn(p: Pool, path: seq<OutPoint>, from: Hash, to: Hash, s: set<Hash>)
    requires Closed(p, s) && (from in p.txs ==> from in s) && IsPath(p, path, from, to)
    ensures to in s
  {
    if path != [] {
      var last := path[|path| - 1];
      PathStaysIn(p, path[..|path| - 1], from, last.hash, s);
    }
  }

  /** The closure is what can be reached by spends. */
  lemma ClosureIsDescendants(p: Pool, roots: set<Hash>, s: set<Hash>, h: Hash)
    requires MarksUsed(p) && IsClosure(p, roots, s)
    ensures h in s <==> IsDescendant(p, roots, h)
  {
    var reached := set x | x in p.txs && IsDescendant(p, roots, x);
    forall x | x in roots * p.txs.Keys ensures x in reached {
      assert IsPath(p, [], x, x);
    }
    forall o | o in p.next && o.hash in reached && IsPoolOutput(p, o) ensures p.next[o].hash in reached {
      var path, from :| from in roots && IsPath(p, path, from, o.hash);
      assert (path + [o])[..|path|] == path;
      assert IsPath(p, path + [o], from, p.next[o].hash);
    }
    assert s <= reached;
    if IsDescendant(p, roots, h) {
      var path, from :| from in roots && IsPath(p, path, from, h);
      PathStaysIn(p, path, from, h, s);
    }
  }

  // ----- the worklist

  /** The pool transactions that spend the first `n` outputs of `h`, in output order. */
  function Spenders(next: map<OutPoint, InPoint>, h: Hash, n: nat): seq<Hash> {
    if n == 0 then []
    else
      Spenders(next, h, n - 1) +
      if OutPoint(h, n - 1) in next then [next[OutPoint(h, n - 1)].hash] else []
  }

  lemma {:induction false} SpenderIsListed(next: map<OutPoint, InPoint>, h: Hash, n: nat, i: nat)
    requires i < n && OutPoint(h, i) in next
    ensures next[OutPoint(h, i)].hash in Spenders(next, h, n)
  {
    if i < n - 1 {
      SpenderIsListed(next, h, n - 1, i);
    }
  }

  lemma {:induction false} ListedIsSpender(next: map<OutPoint, InPoint>, h: Hash, n: nat, c: Hash)
    requires c in Spenders(next, h, n)
    ensures exists i: nat :: i < n && OutPoint(h, i) in next && next[OutPoint(h, i)].hash == c
  {
    if c in Spenders(next, h, n - 1) {
      ListedIsSpender(next, h, n - 1, c);
    } else {
      assert OutPoint(h, n - 1) in next;
    }
  }

  ghost predicate RootsSeen(p: Pool, roots: set<Hash>, gone: set<Hash>, work: seq<Hash>) {
    forall h :: h in roots && h in p.txs ==> h in gone || h in work
  }

  ghost predicate SpendersSeen(p: Pool, gone: set<Hash>, work: seq<Hash>) {
    forall o :: o in p.next && o.hash in gone && IsPoolOutput(p, o) ==>
      p.next[o].hash in gone || p.next[o].hash in work
  }

  /** Nothing is removed or listed without need. */
  ghost predicate Needed(p: Pool, roots: set<Hash>, gone: set<Hash>, work: seq<Hash>) {
    forall t :: Contains(p, roots, t) && Closed(p, t) ==>
      gone <= t && forall h :: h in work && h in p.txs ==> h in t
  }

  /** What the loop of remove keeps: `gone` has been taken out of the pool `p` it started on. */
  ghost predicate Working(p: Pool, roots: set<Hash>, gone: set<Hash>, work: seq<Hash>) {
    && gone <= p.txs.Keys
    && RootsSeen(p, roots, gone, work)
    && SpendersSeen(p, gone, work)
    && Needed(p, roots, gone, work)
  }

  lemma WorkSkips(p: Pool, roots: set<Hash>, gone: set<Hash>, work: seq<Hash>)
    requires Working(p, roots, gone, work) && work != [] && (work[0] in gone || work[0] !in p.txs)
    requires MarksUsed(p)
    ensures Working(p, roots, gone, work[1..])
  {
    assert forall h :: h in work ==> h == work[0] || h in work[1..];
  }

  lemma WorkTakes(p: Pool, roots: set<Hash>, gone: set<Hash>, work: seq<Hash>, rest: seq<Hash>)
    requires Working(p, roots, gone, work) && work != [] && work[0] in p.txs
    requires rest == work[1..] + Spenders(Without(p, gone).next, work[0], |p.txs[work[0]].tx.vout|)
    ensures Working(p, roots, gone + {work[0]}, rest)
  {
    var h := work[0];
    var n := |p.txs[h].tx.vout|;
    var next := Without(p, gone).next;
    assert forall x :: x in work ==> x == h || x in rest;
    forall o | o in p.next && o.hash in gone + {h} && IsPoolOutput(p, o)
      ensures p.next[o].hash in gone + {h} || p.next[o].hash in rest
    {
      if o.hash == h && p.next[o].hash !in gone {
        assert o == OutPoint(h, o.n);
        SpenderIsListed(next, h, n, o.n);
      }
    }
    forall t | Contains(p, roots, t) && Closed(p, t)
      ensures gone + {h} <= t && forall x :: x in rest && x in p.txs ==> x in t
    {
      forall x | x in rest && x in p.txs ensures x in t {
        if x !in work {
          ListedIsSpender(next, h, n, x);
          var i: nat :| i < n && OutPoint(h, i) in next && next[OutPoint(h, i)].hash == x;
          assert IsPoolOutput(p, OutPoint(h, i));
        }
      }
    }
  }

  lemma WorkEnds(p: Pool, roots: set<Hash>, gone: set<Hash>)
    requires Working(p, roots, gone, [])
    ensures IsClosure(p, roots, gone)
  {
  }

  // ----- closures of several roots

  /** Removing the descendants of more roots from what an earlier removal has left takes out
      just what removing them all at once would. */
  lemma ClosuresCompose(p: Pool, a: set<Hash>, gone: set<Hash>, b: set<Hash>, more: set<Hash>)
    requires IsClosure(p, a, gone) && IsClosure(Without(p, gone), b, more)
    ensures IsClosure(p, a + b, gone + more)
  {
    var q := Without(p, gone);
    forall o | o in p.next && o.hash in gone + more && IsPoolOutput(p, o)
      ensures p.next[o].hash in gone + more
    {
      if o.hash in more && p.next[o].hash !in gone {
        assert o in q.next && IsPoolOutput(q, o);
      }
    }
    forall t | Contains(p, a + b, t) && Closed(p, t) ensures gone + more <= t {
      assert Contains(p, a, t);
      LeftIsClosed(p, gone, t);
      assert Contains(q, b, t - gone);
    }
    forall h | h in (a + b) * p.txs.Keys ensures h in gone + more {
      if h in a {
        assert h in a * p.txs.Keys;
      } else if h !in gone {
        assert h in b * q.txs.Keys;
      }
    }
  }

  lemma LeftIsClosed(p: Pool, gone: set<Hash>, t: set<Hash>)
    requires Closed(p, t)
    ensures Closed(Without(p, gone), t - gone)
  {
    var q := Without(p, gone);
    forall o | o in q.next && o.hash in t - gone && IsPoolOutput(q, o) ensures q.next[o].hash in t - gone {
      assert IsPoolOutput(p, o);
    }
  }
}
