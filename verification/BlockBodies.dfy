/** Block bodies that arrive in any order after their headers, and the running count of
    transactions that links them up (src/core/main.cpp, ReceivedBlockTransactions). */
module BlockBodies {
  import opened Common

  /** Each header names an earlier one as its parent, or none. */
  predicate Headers(prev: seq<int>) {
    forall b {:trigger prev[b]} :: 0 <= b < |prev| ==> NONE <= prev[b] < b
  }

  predicate IsBlock(prev: seq<int>, b: int) {
    0 <= b < |prev|
  }

  // ----- what nChainTx is meant to be

  /** The bodies of the block and of all its ancestors are there. */
  predicate AllBodies(prev: seq<int>, nTx: seq<nat>, b: int)
    requires Headers(prev) && |nTx| == |prev| && IsBlock(prev, b)
    decreases b
  {
    nTx[b] > 0 && (prev[b] == NONE || AllBodies(prev, nTx, prev[b]))
  }

  /** The transactions on the path to a block. */
  function PathSum(prev: seq<int>, nTx: seq<nat>, b: int): nat
    requires Headers(prev) && |nTx| == |prev| && IsBlock(prev, b)
    decreases b
  {
    nTx[b] + if prev[b] == NONE then 0 else PathSum(prev, nTx, prev[b])
  }

  ghost predicate CountsAreRight(prev: seq<int>, nTx: seq<nat>, nChainTx: seq<nat>)
    requires Headers(prev)
  {
    && |nTx| == |nChainTx| == |prev|
    && forall b :: 0 <= b < |prev| ==>
         nChainTx[b] == if AllBodies(prev, nTx, b) then PathSum(prev, nTx, b) else 0
  }

  /** mapBlocksUnlinked: children that wait, by parent, in the order they came. */
  type Unlinked = map<int, seq<int>>

  predicate Waits(u: Unlinked, p: int, b: int) {
    p in u && b in u[p]
  }

  /** Exactly the blocks with a body but no link wait, once each. */
  ghost predicate UnlinkedIsRight(prev: seq<int>, nTx: seq<nat>, u: Unlinked)
    requires Headers(prev) && |nTx| == |prev|
  {
    && (forall p, b :: Waits(u, p, b) <==>
          IsBlock(prev, b) && nTx[b] > 0 && !AllBodies(prev, nTx, b) && prev[b] == p)
    && forall p :: p in u ==> Distinct(u[p])
  }

  // ----- what one pass through the queue keeps

  /** Is the parent of `b` linked? */
  predicate ParentLinked(prev: seq<int>, nChainTx: seq<nat>, b: int)
    requires Headers(prev) && |nChainTx| == |prev| && IsBlock(prev, b)
  {
    prev[b] == NONE || nChainTx[prev[b]] > 0
  }

  function ParentCount(prev: seq<int>, nChainTx: seq<nat>, b: int): nat
    requires Headers(prev) && |nChainTx| == |prev| && IsBlock(prev, b)
  {
    if prev[b] == NONE then 0 else nChainTx[prev[b]]
  }

  /** A linked block has a body and a linked parent, and adds up. */
  ghost predicate LinksHold(prev: seq<int>, nTx: seq<nat>, nChainTx: seq<nat>)
    requires Headers(prev) && |nTx| == |nChainTx| == |prev|
  {
    forall b {:trigger nChainTx[b]} :: 0 <= b < |prev| && nChainTx[b] > 0 ==>
      && nTx[b] > 0 && ParentLinked(prev, nChainTx, b)
      && nChainTx[b] == ParentCount(prev, nChainTx, b) + nTx[b]
  }

  /** A block with a body that is not linked is queued if its parent is linked, else it waits. */
  ghost predicate Covered(prev: seq<int>, nTx: seq<nat>, nChainTx: seq<nat>, u: Unlinked, queue: seq<int>)
    requires Headers(prev) && |nTx| == |nChainTx| == |prev|
  {
    forall b :: 0 <= b < |prev| && nTx[b] > 0 && nChainTx[b] == 0 ==>
      if ParentLinked(prev, nChainTx, b) then b in queue else Waits(u, prev[b], b)
  }

  ghost predicate QueueFits(prev: seq<int>, nTx: seq<nat>, nChainTx: seq<nat>, queue: seq<int>)
    requires Headers(prev) && |nTx| == |nChainTx| == |prev|
  {
    && (forall b :: b in queue ==>
          IsBlock(prev, b) && nTx[b] > 0 && nChainTx[b] == 0 && ParentLinked(prev, nChainTx, b))
    && Distinct(queue)
  }

  ghost predicate WaitersFit(prev: seq<int>, nTx: seq<nat>, nChainTx: seq<nat>, u: Unlinked)
    requires Headers(prev) && |nTx| == |nChainTx| == |prev|
  {
    && (forall p, b :: Waits(u, p, b) ==>
          IsBlock(prev, b) && nTx[b] > 0 && nChainTx[b] == 0 && !ParentLinked(prev, nChainTx, b) && prev[b] == p)
    && forall p :: p in u ==> Distinct(u[p])
  }

  ghost predicate Placed(prev: seq<int>, nTx: seq<nat>, nChainTx: seq<nat>, u: Unlinked, queue: seq<int>)
    requires Headers(prev) && |nTx| == |nChainTx| == |prev|
  {
    && Covered(prev, nTx, nChainTx, u, queue)
    && QueueFits(prev, nTx, nChainTx, queue)
    && WaitersFit(prev, nTx, nChainTx, u)
  }

  ghost predicate Linking(prev: seq<int>, nTx: seq<nat>, nChainTx: seq<nat>, u: Unlinked, queue: seq<int>) {
    && Headers(prev) && |nTx| == |nChainTx| == |prev|
    && LinksHold(prev, nTx, nChainTx) && Placed(prev, nTx, nChainTx, u, queue)
  }

  /** The front of the queue is linked and its waiting children join the queue. */
  lemma LinkingGoesOn(prev: seq<int>, nTx: seq<nat>, n: seq<nat>, u: Unlinked, queue: seq<int>)
    requires Linking(prev, nTx, n, u, queue) && queue != []
    ensures var b := queue[0];
            && IsBlock(prev, b)
            && var n' := n[b := ParentCount(prev, n, b) + nTx[b]];
               && n'[b] > 0 && n[b] == 0
               && Linking(prev, nTx, n', u - {b}, queue[1..] + if b in u then u[b] else [])
  {
    hide Placed, LinksHold;
    FrontIsBlock(prev, nTx, n, u, queue);
    var b := queue[0];
    LinksGoOn(prev, nTx, n, b);
    PlacedGoesOn(prev, nTx, n, u, queue);
  }

  lemma FrontIsBlock(prev: seq<int>, nTx: seq<nat>, n: seq<nat>, u: Unlinked, queue: seq<int>)
    requires Headers(prev) && |nTx| == |n| == |prev| && Placed(prev, nTx, n, u, queue) && queue != []
    ensures IsBlock(prev, queue[0]) && nTx[queue[0]] > 0 && n[queue[0]] == 0 && ParentLinked(prev, n, queue[0])
  {
  }

  lemma LinksGoOn(prev: seq<int>, nTx: seq<nat>, n: seq<nat>, b: int)
    requires Headers(prev) && |nTx| == |n| == |prev| && LinksHold(prev, nTx, n)
    requires IsBlock(prev, b) && nTx[b] > 0 && n[b] == 0 && ParentLinked(prev, n, b)
    ensures LinksHold(prev, nTx, n[b := ParentCount(prev, n, b) + nTx[b]])
  {
    var n' := n[b := ParentCount(prev, n, b) + nTx[b]];
    forall x | 0 <= x < |prev| && n'[x] > 0
      ensures nTx[x] > 0 && ParentLinked(prev, n', x) && n'[x] == ParentCount(prev, n', x) + nTx[x]
    {
      if x != b {
        assert n[x] > 0;
      }
    }
  }

  lemma PlacedGoesOn(prev: seq<int>, nTx: seq<nat>, n: seq<nat>, u: Unlinked, queue: seq<int>)
    requires Headers(prev) && |nTx| == |n| == |prev| && Placed(prev, nTx, n, u, queue) && queue != []
    requires IsBlock(prev, queue[0]) && nTx[queue[0]] > 0 && n[queue[0]] == 0
    ensures var b := queue[0];
            Placed(prev, nTx, n[b := ParentCount(prev, n, b) + nTx[b]], u - {b},
                   queue[1..] + if b in u then u[b] else [])
  {
    hide Covered, QueueFits, WaitersFit;
    var b := queue[0];
    var count := ParentCount(prev, n, b) + nTx[b];
    FrontDoesNotWait(prev, nTx, n, u, queue);
    CoveredGoesOn(prev, nTx, n, u, queue, count);
    QueueGoesOn(prev, nTx, n, u, queue, count);
    WaitersGoOn(prev, nTx, n, u, b, count);
  }

  lemma FrontDoesNotWait(prev: seq<int>, nTx: seq<nat>, n: seq<nat>, u: Unlinked, queue: seq<int>)
    requires Headers(prev) && |nTx| == |n| == |prev| && queue != []
    requires QueueFits(prev, nTx, n, queue) && WaitersFit(prev, nTx, n, u)
    ensures forall p :: !Waits(u, p, queue[0])
  {
  }

  lemma CoveredGoesOn(prev: seq<int>, nTx: seq<nat>, n: seq<nat>, u: Unlinked, queue: seq<int>, count: nat)
    requires Headers(prev) && |nTx| == |n| == |prev| && Covered(prev, nTx, n, u, queue) && queue != []
    requires IsBlock(prev, queue[0]) && n[queue[0]] == 0 && count > 0
    ensures var b := queue[0];
            Covered(prev, nTx, n[b := count], u - {b}, queue[1..] + if b in u then u[b] else [])
  {
    var b := queue[0];
    var n' := n[b := count];
    var queue', u' := queue[1..] + (if b in u then u[b] else []), u - {b};
    forall x | 0 <= x < |prev| && nTx[x] > 0 && n'[x] == 0
      ensures if ParentLinked(prev, n', x) then x in queue' else Waits(u', prev[x], x)
    {
      assert n[x] == 0 && x != b;
      if ParentLinked(prev, n, x) {
        assert x in queue[1..];
      } else {
        assert Waits(u, prev[x], x);
      }
    }
  }

  lemma QueueGoesOn(prev: seq<int>, nTx: seq<nat>, n: seq<nat>, u: Unlinked, queue: seq<int>, count: nat)
    requires Headers(prev) && |nTx| == |n| == |prev| && queue != []
    requires QueueFits(prev, nTx, n, queue) && WaitersFit(prev, nTx, n, u) && count > 0 && IsBlock(prev, queue[0])
    ensures var b := queue[0];
            QueueFits(prev, nTx, n[b := count], queue[1..] + if b in u then u[b] else [])
  {
    var b := queue[0];
    var n' := n[b := count];
    var rest, kids := queue[1..], if b in u then u[b] else [];
    forall x | x in rest ensures IsBlock(prev, x) && nTx[x] > 0 && n'[x] == 0 && ParentLinked(prev, n', x) {
      assert x in queue;
    }
    forall x | x in kids
      ensures IsBlock(prev, x) && nTx[x] > 0 && n'[x] == 0 && ParentLinked(prev, n', x) && x !in queue
    {
      assert Waits(u, b, x);
    }
    DistinctJoin(rest, kids);
  }

  lemma DistinctJoin(a: seq<int>, b: seq<int>)
    requires Distinct(a) && Distinct(b) && forall x :: x in b ==> x !in a
    ensures Distinct(a + b)
  {
    var s := a + b;
    forall i, j | 0 <= i < j < |s| ensures s[i] != s[j] {
      if i < |a| <= j {
        assert s[j] in b && s[i] in a;
      }
    }
  }

  lemma WaitersGoOn(prev: seq<int>, nTx: seq<nat>, n: seq<nat>, u: Unlinked, b: int, count: nat)
    requires Headers(prev) && |nTx| == |n| == |prev| && WaitersFit(prev, nTx, n, u)
    requires IsBlock(prev, b) && n[b] == 0
    requires forall p :: !Waits(u, p, b)
    ensures WaitersFit(prev, nTx, n[b := count], u - {b})
  {
    var n', u' := n[b := count], u - {b};
    forall p, x | Waits(u', p, x)
      ensures IsBlock(prev, x) && nTx[x] > 0 && n'[x] == 0 && !ParentLinked(prev, n', x) && prev[x] == p
    {
      assert Waits(u, p, x);
    }
  }

  /** With an empty queue every count is right. */
  lemma {:induction false} CountAt(prev: seq<int>, nTx: seq<nat>, n: seq<nat>, u: Unlinked, b: int)
    requires Linking(prev, nTx, n, u, []) && IsBlock(prev, b)
    ensures n[b] == if AllBodies(prev, nTx, b) then PathSum(prev, nTx, b) else 0
    ensures AllBodies(prev, nTx, b) ==> n[b] > 0
    decreases b
  {
    if prev[b] != NONE {
      CountAt(prev, nTx, n, u, prev[b]);
    }
  }

  lemma LinkingEnds(prev: seq<int>, nTx: seq<nat>, n: seq<nat>, u: Unlinked)
    requires Linking(prev, nTx, n, u, [])
    ensures CountsAreRight(prev, nTx, n) && UnlinkedIsRight(prev, nTx, u)
  {
    forall b | 0 <= b < |prev|
      ensures n[b] == if AllBodies(prev, nTx, b) then PathSum(prev, nTx, b) else 0
      ensures AllBodies(prev, nTx, b) <==> n[b] > 0
    {
      CountAt(prev, nTx, n, u, b);
    }
    forall p, b | IsBlock(prev, b) && nTx[b] > 0 && !AllBodies(prev, nTx, b) && prev[b] == p ensures Waits(u, p, b) {
    }
  }

  /** And the other way round. */
  lemma RightIsLinking(prev: seq<int>, nTx: seq<nat>, n: seq<nat>, u: Unlinked)
    requires Headers(prev) && |nTx| == |prev| && CountsAreRight(prev, nTx, n) && UnlinkedIsRight(prev, nTx, u)
    ensures Linking(prev, nTx, n, u, [])
  {
    forall b | 0 <= b < |prev| ensures n[b] > 0 <==> AllBodies(prev, nTx, b) {
    }
  }

  // ----- a body arrives

  /** Where the loop starts when block `b` gets its body and can be linked. */
  lemma LinkingStarts(prev: seq<int>, nTx: seq<nat>, n: seq<nat>, u: Unlinked, b: int, count: nat)
    requires Linking(prev, nTx, n, u, []) && IsBlock(prev, b) && nTx[b] == 0 && count > 0
    ensures n[b] == 0
    ensures ParentLinked(prev, n, b) ==> Linking(prev, nTx[b := count], n, u, [b])
  {
  }

  /** The multimap with one more entry. */
  function Insert(u: Unlinked, p: int, b: int): Unlinked {
    u[p := (if p in u then u[p] else []) + [b]]
  }

  /** Where it ends when it cannot. */
  lemma LinkingWaits(prev: seq<int>, nTx: seq<nat>, n: seq<nat>, u: Unlinked, b: int, count: nat)
    requires Linking(prev, nTx, n, u, []) && IsBlock(prev, b) && nTx[b] == 0 && count > 0
    requires !ParentLinked(prev, n, b)
    ensures Linking(prev, nTx[b := count], n, Insert(u, prev[b], b), [])
  {
    hide Distinct;
    var p := prev[b];
    var u' := Insert(u, p, b);
    assert !Waits(u, p, b);
    forall q, x ensures Waits(u', q, x) <==> Waits(u, q, x) || (q == p && x == b) {
    }
    DistinctSingle(b);
    if p in u {
      DistinctJoin(u[p], [b]);
    } else {
      assert u'[p] == [b];
    }
    assert WaitersFit(prev, nTx[b := count], n, u');
    assert Covered(prev, nTx[b := count], n, u', []);
  }

  lemma DistinctSingle(b: int)
    ensures Distinct([b]) && Distinct<int>([])
  {
  }

  /** A new header changes nothing for the others. */
  lemma HeaderArrives(prev: seq<int>, nTx: seq<nat>, n: seq<nat>, u: Unlinked, p: int)
    requires Linking(prev, nTx, n, u, []) && NONE <= p < |prev|
    ensures Linking(prev + [p], nTx + [0], n + [0], u, [])
  {
    hide Distinct;
    var prev', nTx', n' := prev + [p], nTx + [0], n + [0];
    assert forall b :: 0 <= b < |prev| ==> prev'[b] == prev[b] && nTx'[b] == nTx[b] && n'[b] == n[b];
    forall b | 0 <= b < |prev| ensures ParentLinked(prev', n', b) == ParentLinked(prev, n, b) {
    }
  }

  class Bodies {
    var prev: seq<int>
    var nTx: seq<nat>
    var nChainTx: seq<nat>
    var unlinked: Unlinked

    ghost predicate Valid()
      reads this
    {
      && Headers(prev) && |nTx| == |prev|
      && CountsAreRight(prev, nTx, nChainTx) && UnlinkedIsRight(prev, nTx, unlinked)
    }

    constructor ()
      ensures Valid() && prev == []
    {
      prev, nTx, nChainTx, unlinked := [], [], [], map[];
    }

    /** A header is accepted. */
    method AddHeader(p: int) returns (b: int)
      requires Valid() && NONE <= p < |prev|
      modifies this
      ensures Valid() && prev == old(prev) + [p] && nTx == old(nTx) + [0] && b == |old(prev)|
    {
      hide CountsAreRight, UnlinkedIsRight, Linking;
      RightIsLinking(prev, nTx, nChainTx, unlinked);
      HeaderArrives(prev, nTx, nChainTx, unlinked, p);
      b := |prev|;
      prev, nTx, nChainTx := prev + [p], nTx + [0], nChainTx + [0];
      LinkingEnds(prev, nTx, nChainTx, unlinked);
    }

    /** ReceivedBlockTransactions, for a body that was not there yet. */
    method Receive(b: int, count: nat)
      requires Valid() && IsBlock(prev, b) && nTx[b] == 0 && count > 0
      modifies this
      ensures Valid() && prev == old(prev) && nTx == old(nTx)[b := count]
    {
      hide CountsAreRight, UnlinkedIsRight, Linking;
      RightIsLinking(prev, nTx, nChainTx, unlinked);
      LengthsAgree(prev, nTx, nChainTx, unlinked, []);
      LinkingStarts(prev, nTx, nChainTx, unlinked, b, count);
      ghost var before := nTx;
      nTx := nTx[b := count];
      assert nChainTx[b := 0] == nChainTx;
      nChainTx := nChainTx[b := 0];
      if prev[b] == NONE || nChainTx[prev[b]] != 0 {
        var queue := [b];
        while queue != []
          invariant prev == old(prev) && nTx == old(nTx)[b := count]
          invariant Linking(prev, nTx, nChainTx, unlinked, queue)
          decreases Zeros(nChainTx)
        {
          var x := queue[0];
          LengthsAgree(prev, nTx, nChainTx, unlinked, queue);
          LinkingGoesOn(prev, nTx, nChainTx, unlinked, queue);
          var total := (if prev[x] == NONE then 0 else nChainTx[prev[x]]) + nTx[x];
          ZerosShrink(nChainTx, x, total);
          nChainTx := nChainTx[x := total];
          queue := queue[1..] + if x in unlinked then unlinked[x] else [];
          unlinked := unlinked - {x};
        }
      } else {
        LinkingWaits(prev, before, nChainTx, unlinked, b, count);
        unlinked := Insert(unlinked, prev[b], b);
      }
      LinkingEnds(prev, nTx, nChainTx, unlinked);
    }
  }

  lemma LengthsAgree(prev: seq<int>, nTx: seq<nat>, n: seq<nat>, u: Unlinked, queue: seq<int>)
    requires Linking(prev, nTx, n, u, queue)
    ensures Headers(prev) && |nTx| == |n| == |prev| && (queue != [] ==> IsBlock(prev, queue[0]))
  {
  }

  /** The blocks that are not linked. */
  ghost function Zeros(n: seq<nat>): set<int> {
    set b | 0 <= b < |n| && n[b] == 0
  }

  lemma ZerosShrink(n: seq<nat>, b: int, count: nat)
    requires 0 <= b < |n| && n[b] == 0 && count > 0
    ensures Zeros(n[b := count]) < Zeros(n)
  {
    assert b in Zeros(n);
  }
}
