/** The active chain as an array of blocks by height (src/chain/chain.h, src/chain/chain.cpp). */
module ChainPath {
  import opened Common
  import opened BlockTree

  /** The blocks from the start of the tree up to `b`, by height. */
  function PathTo(t: Tree, b: int): seq<int>
    requires Grown(t) && IsBlock(t, b)
    decreases b
  {
    (if t[b].prev == NONE then [] else PathTo(t, t[b].prev)) + [b]
  }

  lemma {:induction false} PathAt(t: Tree, b: int, height: int)
    requires Grown(t) && IsBlock(t, b)
    ensures |PathTo(t, b)| == t[b].height + 1
    ensures 0 <= height <= t[b].height ==> PathTo(t, b)[height] == Walk(t, b, height)
    decreases b
  {
    if t[b].prev != NONE {
      PathAt(t, t[b].prev, height);
    }
  }

  /** The lower part of a path is the path to where it ends. */
  lemma {:induction false} PathPrefix(t: Tree, b: int, height: int)
    requires Grown(t) && IsBlock(t, b) && 0 <= height <= t[b].height
    ensures IsBlock(t, Walk(t, b, height))
    ensures |PathTo(t, b)| == t[b].height + 1
    ensures PathTo(t, b)[..height + 1] == PathTo(t, Walk(t, b, height))
    decreases b
  {
    PathAt(t, b, height);
    if t[b].height > height {
      PathPrefix(t, t[b].prev, height);
      assert PathTo(t, b)[..height + 1] == PathTo(t, t[b].prev)[..height + 1];
    }
  }

  predicate IsChain(t: Tree, c: seq<int>)
    requires Grown(t)
  {
    c == [] || (IsBlock(t, c[|c| - 1]) && c == PathTo(t, c[|c| - 1]))
  }

  /** A chain stays one while the tree grows. */
  lemma ChainStays(t: Tree, more: Tree, c: seq<int>)
    requires Grown(t) && Grown(t + more) && IsChain(t, c)
    ensures IsChain(t + more, c)
  {
    if c != [] {
      PathStays(t, more, c[|c| - 1]);
    }
  }

  lemma {:induction false} PathStays(t: Tree, more: Tree, b: int)
    requires Grown(t) && Grown(t + more) && IsBlock(t, b)
    ensures PathTo(t + more, b) == PathTo(t, b)
    decreases b
  {
    assert (t + more)[b] == t[b];
    if t[b].prev != NONE {
      PathStays(t, more, t[b].prev);
    }
  }

  /** The array subscript, null outside. */
  function At(c: seq<int>, height: int): int {
    if 0 <= height < |c| then c[height] else NONE
  }

  predicate Contains(t: Tree, c: seq<int>, b: int)
    requires IsBlock(t, b)
  {
    At(c, t[b].height) == b
  }

  /** Being in the array means being the tip or an ancestor of it. */
  lemma ContainsAncestors(t: Tree, c: seq<int>, b: int)
    requires Grown(t) && IsChain(t, c) && IsBlock(t, b)
    ensures Contains(t, c, b) <==> c != [] && IsAncestor(t, b, c[|c| - 1])
  {
    HeightIsNat(t, b);
    if c != [] {
      var tip := c[|c| - 1];
      PathAt(t, tip, t[b].height);
      if IsAncestor(t, b, tip) {
        AncestorIsNotAbove(t, b, tip);
      }
    }
  }

  /** The chain holds every ancestor of a block it holds. */
  lemma ContainsBelow(t: Tree, c: seq<int>, b: int, height: int)
    requires Grown(t) && IsChain(t, c) && IsBlock(t, b) && Contains(t, c, b) && 0 <= height <= t[b].height
    ensures IsBlock(t, Walk(t, b, height)) && Contains(t, c, Walk(t, b, height))
    ensures At(c, height) == Walk(t, b, height)
  {
    hide PathTo;
    var tip := c[|c| - 1];
    ContainsAncestors(t, c, b);
    WalkArrives(t, b, height);
    WalkTwice(t, tip, t[b].height, height);
    PathAt(t, tip, height);
  }

  /** Next gives the only child in the chain. */
  lemma NextIsChild(t: Tree, c: seq<int>, b: int)
    requires Grown(t) && IsChain(t, c) && IsBlock(t, b) && Contains(t, c, b)
    ensures var n := At(c, t[b].height + 1);
            if b == c[|c| - 1] then n == NONE else IsBlock(t, n) && Contains(t, c, n) && t[n].prev == b
  {
    hide PathTo;
    var tip := c[|c| - 1];
    HeightIsNat(t, b);
    ContainsAncestors(t, c, b);
    AncestorIsNotAbove(t, b, tip);
    PathAt(t, tip, t[b].height);
    if b != tip {
      PathAt(t, tip, t[b].height + 1);
      WalkArrives(t, tip, t[b].height + 1);
      WalkTwice(t, tip, t[b].height + 1, t[b].height);
    }
  }

  // ----- forks

  /** `f` is the last block of the chain on the way to `b`, or NONE. */
  ghost predicate IsFork(t: Tree, c: seq<int>, b: int, f: int)
    requires Grown(t) && IsBlock(t, b)
  {
    if f == NONE
    then forall x {:trigger IsAncestor(t, x, b)} :: IsAncestor(t, x, b) ==> !Contains(t, c, x)
    else
      && IsAncestor(t, f, b) && Contains(t, c, f)
      && forall x {:trigger IsAncestor(t, x, b)} ::
           IsAncestor(t, x, b) && Contains(t, c, x) ==> t[x].height <= t[f].height
  }

  /** Up to the fork everything on the way is in the chain, above it nothing is. */
  lemma ForkSplits(t: Tree, c: seq<int>, b: int, f: int, height: int)
    requires Grown(t) && IsChain(t, c) && IsBlock(t, b) && f != NONE && IsFork(t, c, b, f) && 0 <= height <= t[b].height
    ensures IsBlock(t, Walk(t, b, height)) && t[Walk(t, b, height)].height == height
    ensures IsAncestor(t, Walk(t, b, height), b)
    ensures Contains(t, c, Walk(t, b, height)) <==> height <= t[f].height
  {
    hide PathTo;
    WalkArrives(t, b, height);
    if height <= t[f].height {
      WalkTwice(t, b, t[f].height, height);
      ContainsBelow(t, c, f, height);
    }
  }

  /** What FindFork has passed when it stands on `x`. */
  ghost predicate Passed(t: Tree, c: seq<int>, b: int, x: int)
    requires Grown(t) && IsBlock(t, b) && NONE <= x < |t|
  {
    if x == NONE then IsFork(t, c, b, NONE)
    else
      && IsAncestor(t, x, b)
      && forall y {:trigger IsAncestor(t, y, b)} ::
           IsAncestor(t, y, b) && Contains(t, c, y) ==> t[y].height <= t[x].height
  }

  lemma PassedStarts(t: Tree, c: seq<int>, b: int, height: int)
    requires Grown(t) && IsChain(t, c) && IsBlock(t, b) && (|c| - 1 <= height <= t[b].height || height == t[b].height)
    requires 0 <= height
    ensures Passed(t, c, b, Walk(t, b, height))
  {
    hide PathTo;
    WalkArrives(t, b, height);
    forall y | IsAncestor(t, y, b) && Contains(t, c, y) ensures t[y].height <= height {
      AncestorIsNotAbove(t, y, b);
    }
  }

  lemma PassedGoesOn(t: Tree, c: seq<int>, b: int, x: int)
    requires Grown(t) && IsBlock(t, b) && IsBlock(t, x) && Passed(t, c, b, x) && !Contains(t, c, x)
    ensures Passed(t, c, b, t[x].prev)
  {
    forall y | IsAncestor(t, y, b) && Contains(t, c, y) ensures 0 <= t[y].height < t[x].height {
      OneAtEachHeight(t, x, y, b);
      HeightIsNat(t, y);
    }
    if t[x].prev != NONE {
      AncestorOfAncestor(t, x, b);
    }
  }

  lemma HeightsOfAncestors(t: Tree, y: int, b: int)
    requires Grown(t) && IsAncestor(t, y, b)
    ensures IsBlock(t, y) && t[y].height >= 0
  {
    HeightIsNat(t, y);
  }

  class Chain {
    var blocks: seq<int>

    constructor ()
      ensures blocks == []
    {
      blocks := [];
    }

    /** SetTip: it stops at the first block that is already in its place, and everything below
        is right all the same. */
    method SetTip(t: Tree, b: int)
      requires Grown(t) && IsChain(t, blocks) && NONE <= b < |t|
      modifies this
      ensures blocks == if b == NONE then [] else PathTo(t, b)
      ensures IsChain(t, blocks)
    {
      hide PathTo;
      if b == NONE {
        blocks := [];
        return;
      }
      ghost var before := blocks;
      HeightIsNat(t, b);
      PathAt(t, b, 0);
      blocks := Resized(blocks, t[b].height + 1);
      var x := b;
      SetTipStarts(t, b, before);
      while x != NONE && blocks[t[x].height] != x
        invariant NONE <= x < |t|
        invariant |blocks| == t[b].height + 1
        invariant x != NONE ==> 0 <= t[x].height <= t[b].height
        invariant Setting(t, b, before, x, blocks)
        decreases x
      {
        SetTipGoesOn(t, b, before, x, blocks);
        blocks := blocks[t[x].height := x];
        x := t[x].prev;
      }
      SetTipEnds(t, b, before, x, blocks);
      PathEndsIn(t, b);
    }

    /** FindFork. */
    method FindFork(t: Tree, b: int) returns (f: int)
      requires IsTree(t) && IsChain(t, blocks) && IsBlock(t, b)
      ensures NONE <= f < |t| && IsFork(t, blocks, b, f)
      ensures OneGenesis(t) && blocks != [] ==> f != NONE
    {
      hide PathTo, Skips, IsFork, IsAncestor, Passed;
      f := b;
      HeightIsNat(t, b);
      if t[b].height > |blocks| - 1 {
        ghost var steps;
        f, steps := GetAncestor(t, b, |blocks| - 1);
        if f != NONE {
          PassedStarts(t, blocks, b, |blocks| - 1);
        } else {
          NothingInEmpty(t, b);
        }
      } else {
        PassedStarts(t, blocks, b, t[b].height);
      }
      while f != NONE && !Contains(t, blocks, f)
        invariant NONE <= f < |t| && Passed(t, blocks, b, f)
        decreases f
      {
        PassedGoesOn(t, blocks, b, f);
        f := t[f].prev;
      }
      PassedEnds(t, blocks, b, f);
    }
  }

  /** vector::resize. */
  function Resized(s: seq<int>, n: nat): (r: seq<int>)
    ensures |r| == n
    ensures forall i :: 0 <= i < n ==> r[i] == if i < |s| then s[i] else NONE
  {
    seq(n, i => if 0 <= i < |s| then s[i] else NONE)
  }

  /** While SetTip stands on `x`, everything above it has been set, and nothing else. */
  ghost predicate Setting(t: Tree, b: int, before: seq<int>, x: int, now: seq<int>)
    requires Grown(t) && IsBlock(t, b) && NONE <= x < |t|
  {
    && |now| == |PathTo(t, b)| == t[b].height + 1
    && (x != NONE ==> IsAncestor(t, x, b))
    && var h := if x == NONE then -1 else t[x].height;
       && (forall i {:trigger now[i]} :: 0 <= i < |now| && h < i ==> now[i] == PathTo(t, b)[i])
       && (forall i {:trigger now[i]} :: 0 <= i < |now| && i <= h ==> now[i] == At(before, i))
  }

  lemma SetTipStarts(t: Tree, b: int, before: seq<int>)
    requires Grown(t) && IsBlock(t, b) && t[b].height >= 0
    ensures Setting(t, b, before, b, Resized(before, t[b].height + 1))
  {
    hide PathTo;
    PathAt(t, b, 0);
  }

  lemma SetTipGoesOn(t: Tree, b: int, before: seq<int>, x: int, now: seq<int>)
    requires Grown(t) && IsBlock(t, b) && IsBlock(t, x) && Setting(t, b, before, x, now)
    ensures 0 <= t[x].height < |now|
    ensures Setting(t, b, before, t[x].prev, now[t[x].height := x])
    ensures t[x].prev != NONE ==> 0 <= t[t[x].prev].height
  {
    hide PathTo, IsAncestor;
    var h := t[x].height;
    HeightsOfAncestors(t, x, b);
    OnPath(t, x, b);
    if t[x].prev != NONE {
      AncestorOfAncestor(t, x, b);
      HeightIsNat(t, t[x].prev);
    }
  }

  /** An ancestor is on the path, at its height. */
  lemma OnPath(t: Tree, x: int, b: int)
    requires Grown(t) && IsAncestor(t, x, b)
    ensures 0 <= t[x].height <= t[b].height && |PathTo(t, b)| == t[b].height + 1
    ensures PathTo(t, b)[t[x].height] == x
  {
    HeightIsNat(t, x);
    AncestorIsNotAbove(t, x, b);
    PathAt(t, b, t[x].height);
  }

  lemma SetTipEnds(t: Tree, b: int, before: seq<int>, x: int, now: seq<int>)
    requires Grown(t) && IsBlock(t, b) && NONE <= x < |t| && IsChain(t, before) && Setting(t, b, before, x, now)
    requires x != NONE ==> 0 <= t[x].height < |now| && now[t[x].height] == x
    ensures now == PathTo(t, b)
  {
    hide PathTo, IsAncestor;
    if x != NONE {
      assert Contains(t, before, x);
      forall i | 0 <= i <= t[x].height ensures now[i] == PathTo(t, b)[i] {
        ContainsBelow(t, before, x, i);
        AncestorsAgree(t, x, b, i);
      }
    }
  }

  lemma AncestorsAgree(t: Tree, x: int, b: int, height: int)
    requires Grown(t) && IsAncestor(t, x, b) && 0 <= height <= t[x].height
    ensures height < |PathTo(t, b)| && PathTo(t, b)[height] == Walk(t, x, height)
  {
    AncestorIsNotAbove(t, x, b);
    WalkTwice(t, b, t[x].height, height);
    PathAt(t, b, height);
  }

  lemma PathEndsIn(t: Tree, b: int)
    requires Grown(t) && IsBlock(t, b)
    ensures PathTo(t, b) != [] && PathTo(t, b)[|PathTo(t, b)| - 1] == b
  {
  }

  lemma NothingInEmpty(t: Tree, b: int)
    requires Grown(t) && IsBlock(t, b)
    ensures Passed(t, [], b, NONE)
  {
  }

  lemma GenesisIsShared(t: Tree, c: seq<int>, b: int)
    requires Grown(t) && IsChain(t, c) && IsBlock(t, b) && OneGenesis(t) && c != []
    ensures IsAncestor(t, 0, b) && Contains(t, c, 0)
  {
    hide PathTo;
    WalkToGenesis(t, b);
    WalkToGenesis(t, c[|c| - 1]);
    ContainsAncestors(t, c, 0);
  }

  lemma PassedEnds(t: Tree, c: seq<int>, b: int, f: int)
    requires Grown(t) && IsChain(t, c) && IsBlock(t, b) && NONE <= f < |t| && Passed(t, c, b, f)
    requires f != NONE ==> Contains(t, c, f)
    ensures IsFork(t, c, b, f)
    ensures OneGenesis(t) && c != [] ==> f != NONE
  {
    hide PathTo;
    if OneGenesis(t) && c != [] {
      GenesisIsShared(t, c, b);
    }
  }
}
