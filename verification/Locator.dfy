/** Block locators (src/chain/chain.cpp, GetLocator; src/core/main.cpp, FindForkInGlobalIndex). */
module Locator {
  import opened Common
  import opened Powers
  import opened BlockTree
  import opened ChainPath

  /** How far back entry `k` of a locator lies: step by step at first, then ever further. */
  function Back(k: nat): nat {
    if k <= 11 then k else Pow2(k - 10) + 9
  }

  function Max(a: int, b: int): int {
    if a >= b then a else b
  }

  /** The distance from entry `k` to the next one. */
  function Stride(k: nat): nat {
    if k <= 10 then 1 else Pow2(k - 10)
  }

  lemma BackGrows(k: nat)
    ensures Back(k + 1) == Back(k) + Stride(k)
    ensures Stride(k + 1) == if k + 1 > 10 then 2 * Stride(k) else Stride(k)
    ensures Stride(k) > 0
  {
    assert Pow2(1) == 2 && Pow2(2) == 4;
  }

  /** The entry for a distance from block `b`. */
  function Entry(t: Tree, b: int, back: int): int
    requires Grown(t) && IsBlock(t, b)
  {
    Walk(t, b, Max(t[b].height - back, 0))
  }

  /** The locator of `b`: ancestors at the distances meant, until one is a genesis block. */
  ghost predicate IsLocator(t: Tree, b: int, have: seq<int>)
    requires Grown(t) && IsBlock(t, b)
  {
    && have != []
    && (forall k :: 0 <= k < |have| ==> have[k] == Entry(t, b, Back(k)))
    && (forall k :: 0 <= k < |have| - 1 ==> Back(k) < t[b].height)
    && Back(|have| - 1) >= t[b].height
  }

  /** The next entry down from the last one. */
  lemma NextEntry(t: Tree, b: int, x: int, k: nat)
    requires Grown(t) && IsBlock(t, b) && t[b].height > Back(k) && x == Entry(t, b, Back(k))
    ensures IsBlock(t, x) && t[x].height == t[b].height - Back(k)
    ensures Walk(t, x, Max(t[x].height - Stride(k), 0)) == Entry(t, b, Back(k + 1))
  {
    BackGrows(k);
    var h := t[b].height - Back(k);
    WalkArrives(t, b, h);
    WalkTwice(t, b, h, Max(h - Stride(k), 0));
  }

  lemma EntryArrives(t: Tree, b: int, back: nat)
    requires Grown(t) && IsBlock(t, b)
    ensures IsBlock(t, Entry(t, b, back)) && t[Entry(t, b, back)].height == Max(t[b].height - back, 0)
    ensures IsAncestor(t, Entry(t, b, back), b)
  {
    HeightIsNat(t, b);
    WalkArrives(t, b, Max(t[b].height - back, 0));
  }

  /** CChain::GetLocator, of a given block or of the tip. */
  method GetLocator(t: Tree, chain: Chain, b: int) returns (have: seq<int>)
    requires IsTree(t) && IsChain(t, chain.blocks) && NONE <= b < |t|
    ensures var from := if b == NONE && chain.blocks != [] then chain.blocks[|chain.blocks| - 1] else b;
            if from == NONE then have == [] else IsLocator(t, from, have)
  {
    hide PathTo, Walk, IsTree, Grown, IsChain, Pow2, Back, Stride, Locating, IsLocator;
    have := [];
    var step := 1;
    var x := b;
    if x == NONE && chain.blocks != [] {
      x := chain.blocks[|chain.blocks| - 1];
    }
    if x == NONE {
      return;
    }
    TipIsBlock(t, chain.blocks);
    ghost var from := x;
    Start(t, from);
    while true
      invariant IsBlock(t, x) && Locating(t, from, have, x, step)
      decreases t[x].height
    {
      if t[x].height == 0 {
        LocatingEnds(t, from, have, x, step);
        have := have + [x];
        break;
      }
      LocatingGoesOn(t, chain.blocks, from, have, x, step);
      have := have + [x];
      var height := Max(t[x].height - step, 0);
      if Contains(t, chain.blocks, x) {
        x := At(chain.blocks, height);
      } else {
        ghost var steps;
        x, steps := GetAncestor(t, x, height);
      }
      if |have| > 10 {
        step := step * 2;
      }
    }
  }

  lemma TipIsBlock(t: Tree, c: seq<int>)
    requires IsTree(t) && IsChain(t, c)
    ensures Grown(t) && (c != [] ==> IsBlock(t, c[|c| - 1]))
  {
  }

  /** What the loop of GetLocator keeps. */
  ghost predicate Locating(t: Tree, b: int, have: seq<int>, x: int, step: int)
    requires Grown(t) && IsBlock(t, b)
  {
    && x == Entry(t, b, Back(|have|)) && step == Stride(|have|)
    && forall k :: 0 <= k < |have| ==> have[k] == Entry(t, b, Back(k)) && Back(k) < t[b].height
  }

  lemma LocatingGoesOn(t: Tree, c: seq<int>, b: int, have: seq<int>, x: int, step: int)
    requires Grown(t) && IsChain(t, c) && IsBlock(t, b) && IsBlock(t, x) && t[x].height != 0
    requires Locating(t, b, have, x, step)
    ensures var height := Max(t[x].height - step, 0);
            && 0 <= height < t[x].height
            && (Contains(t, c, x) ==> At(c, height) == Walk(t, x, height))
            && IsBlock(t, Walk(t, x, height)) && t[Walk(t, x, height)].height == height
            && Locating(t, b, have + [x], Walk(t, x, height), if |have| + 1 > 10 then step * 2 else step)
  {
    hide PathTo, Walk, IsChain, Locating;
    HeightIsNat(t, x);
    LocatingGrows(t, b, have, x, step);
    WalkArrives(t, x, Max(t[x].height - step, 0));
    if Contains(t, c, x) {
      ContainsBelow(t, c, x, Max(t[x].height - step, 0));
    }
  }

  lemma LocatingGrows(t: Tree, b: int, have: seq<int>, x: int, step: int)
    requires Grown(t) && IsBlock(t, b) && IsBlock(t, x) && t[x].height != 0 && Locating(t, b, have, x, step)
    ensures step > 0
    ensures Locating(t, b, have + [x], Walk(t, x, Max(t[x].height - step, 0)),
                     if |have| + 1 > 10 then step * 2 else step)
  {
    hide Walk, Back, Stride, Entry;
    var k := |have|;
    EntryArrives(t, b, Back(k));
    NextEntry(t, b, x, k);
    BackGrows(k);
  }

  lemma LocatingEnds(t: Tree, b: int, have: seq<int>, x: int, step: int)
    requires Grown(t) && IsBlock(t, b) && IsBlock(t, x) && t[x].height == 0 && Locating(t, b, have, x, step)
    ensures IsLocator(t, b, have + [x])
  {
    hide Walk, Back, Stride;
    EntryArrives(t, b, Back(|have|));
  }

  lemma Start(t: Tree, b: int)
    requires Grown(t) && IsBlock(t, b)
    ensures Entry(t, b, Back(0)) == b && Locating(t, b, [], b, 1)
  {
    HeightIsNat(t, b);
  }

  // ----- what a locator is

  lemma {:induction false} BackIncreases(i: nat, j: nat)
    requires i < j
    ensures Back(i) < Back(j)
    decreases j
  {
    BackGrows(j - 1);
    if i < j - 1 {
      BackIncreases(i, j - 1);
    }
  }

  /** It starts with the block itself, goes strictly down through ancestors and ends in a
      genesis block. */
  lemma LocatorGoesDown(t: Tree, b: int, have: seq<int>, i: int, j: int)
    requires Grown(t) && IsBlock(t, b) && IsLocator(t, b, have) && 0 <= i < j < |have|
    ensures IsAncestor(t, have[i], b) && IsAncestor(t, have[j], b)
    ensures t[have[j]].height < t[have[i]].height
  {
    hide Walk, Back, IsAncestor;
    EntryArrives(t, b, Back(i));
    EntryArrives(t, b, Back(j));
    BackIncreases(i, j);
  }

  lemma LocatorEnds(t: Tree, b: int, have: seq<int>)
    requires Grown(t) && IsBlock(t, b) && IsLocator(t, b, have)
    ensures have[0] == b
    ensures IsAncestor(t, have[|have| - 1], b) && t[have[|have| - 1]].height == 0
  {
    hide Walk, Back, IsAncestor;
    Start(t, b);
    EntryArrives(t, b, Back(|have| - 1));
  }

  /** Its length is logarithmic: at most 11 + m for every m with height <= 2^m. */
  lemma LocatorIsShort(t: Tree, b: int, have: seq<int>, m: nat)
    requires Grown(t) && IsBlock(t, b) && IsLocator(t, b, have) && t[b].height <= Pow2(m)
    ensures |have| <= 11 + m
  {
    var last := |have| - 2;
    if last > 11 {
      assert Back(last) < t[b].height;
      if last - 10 >= m {
        Pow2Grows(m, last - 10);
        assert false;
      }
    } else if last >= 0 {
      assert Back(last) < t[b].height;
      SmallHeights(last, m);
    }
  }

  lemma SmallHeights(last: nat, m: nat)
    requires last <= 11 && last < Pow2(m)
    ensures last + 2 <= 11 + m
  {
    assert Pow2(0) == 1 && Pow2(1) == 2 && Pow2(2) == 4;
  }

  // ----- looking one up

  predicate Known(t: Tree, c: seq<int>, b: int) {
    IsBlock(t, b) && Contains(t, c, b)
  }

  /** The first entry that is in the chain, or the start of the chain. An entry that is not a
      block of the tree stands for an unknown hash. */
  ghost predicate IsFirstKnown(t: Tree, c: seq<int>, have: seq<int>, r: int) {
    || (exists k :: 0 <= k < |have| && r == have[k] && Known(t, c, r)
                    && forall j :: 0 <= j < k ==> !Known(t, c, have[j]))
    || (r == At(c, 0) && forall j :: 0 <= j < |have| ==> !Known(t, c, have[j]))
  }

  method FindForkInGlobalIndex(t: Tree, chain: Chain, have: seq<int>) returns (r: int)
    ensures IsFirstKnown(t, chain.blocks, have, r)
  {
    for k := 0 to |have|
      invariant forall j :: 0 <= j < k ==> !Known(t, chain.blocks, have[j])
    {
      if 0 <= have[k] < |t| {
        if Contains(t, chain.blocks, have[k]) {
          return have[k];
        }
      }
    }
    return At(chain.blocks, 0);
  }

  /** Among the distances, the first that reaches `d` is at most twice as far. */
  lemma FirstReaching(k: nat, d: nat)
    requires Back(k) >= d && (k > 0 ==> Back(k - 1) < d)
    ensures Back(k) <= 2 * d
    ensures d <= 11 ==> Back(k) == d
  {
    if k > 0 {
      BackGrows(k - 1);
    }
  }

  /** Looked up in any chain that meets the way to `b` at all, the locator of `b` leads to a block that both
      have, at most twice as far back from `b` as the fork, and to the fork itself when that is
      at most 11 blocks back. */
  lemma LocatorFindsFork(t: Tree, c: seq<int>, b: int, f: int, have: seq<int>, r: int)
    requires Grown(t) && IsChain(t, c) && IsBlock(t, b)
    requires f != NONE && IsFork(t, c, b, f) && IsLocator(t, b, have) && IsFirstKnown(t, c, have, r)
    ensures IsAncestor(t, r, b) && Contains(t, c, r)
    ensures t[b].height - t[r].height <= 2 * (t[b].height - t[f].height)
    ensures t[b].height - t[f].height <= 11 ==> r == f
  {
    hide PathTo, Walk, Back, IsFork, IsAncestor, IsChain, Contains, Grown;
    LastIsKnown(t, c, b, f, have);
    var k :| 0 <= k < |have| && r == have[k] && Known(t, c, r) && forall j :: 0 <= j < k ==> !Known(t, c, have[j]);
    ForkHeight(t, c, b, f);
    EntryKnown(t, c, b, f, Back(k));
    if k > 0 {
      EntryKnown(t, c, b, f, Back(k - 1));
    }
    FirstAt(t, c, b, f, k, r);
  }

  lemma ForkHeight(t: Tree, c: seq<int>, b: int, f: int)
    requires Grown(t) && IsBlock(t, b) && f != NONE && IsFork(t, c, b, f)
    ensures IsBlock(t, f) && 0 <= t[f].height <= t[b].height
    ensures Walk(t, b, t[f].height) == f
  {
    HeightIsNat(t, f);
    AncestorIsNotAbove(t, f, b);
  }

  /** An entry is in the chain exactly when it reaches the fork. */
  lemma EntryKnown(t: Tree, c: seq<int>, b: int, f: int, back: nat)
    requires Grown(t) && IsChain(t, c) && IsBlock(t, b) && f != NONE && IsFork(t, c, b, f)
    ensures IsBlock(t, f) && 0 <= t[f].height <= t[b].height
    ensures IsBlock(t, Entry(t, b, back)) && t[Entry(t, b, back)].height == Max(t[b].height - back, 0)
    ensures IsAncestor(t, Entry(t, b, back), b)
    ensures Known(t, c, Entry(t, b, back)) <==> back >= t[b].height - t[f].height
  {
    hide PathTo, Walk, IsFork, IsAncestor, IsChain;
    ForkHeight(t, c, b, f);
    EntryArrives(t, b, back);
    ForkSplits(t, c, b, f, Max(t[b].height - back, 0));
  }

  lemma LastIsKnown(t: Tree, c: seq<int>, b: int, f: int, have: seq<int>)
    requires Grown(t) && IsChain(t, c) && IsBlock(t, b) && f != NONE && IsFork(t, c, b, f) && IsLocator(t, b, have)
    ensures Known(t, c, have[|have| - 1])
  {
    hide PathTo, Walk, Back, IsFork, IsAncestor, IsChain, Contains;
    EntryKnown(t, c, b, f, Back(|have| - 1));
  }

  lemma FirstAt(t: Tree, c: seq<int>, b: int, f: int, k: nat, r: int)
    requires Grown(t) && IsBlock(t, b) && IsBlock(t, f)
    requires 0 <= t[f].height <= t[b].height && Walk(t, b, t[f].height) == f
    requires r == Entry(t, b, Back(k)) && IsBlock(t, r) && t[r].height == Max(t[b].height - Back(k), 0)
    requires Back(k) >= t[b].height - t[f].height
    requires k > 0 ==> Back(k - 1) < t[b].height - t[f].height
    ensures t[b].height - t[r].height <= 2 * (t[b].height - t[f].height)
    ensures t[b].height - t[f].height <= 11 ==> r == f
  {
    hide Walk, Back;
    FirstReaching(k, t[b].height - t[f].height);
  }
}
