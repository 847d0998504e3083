/** The height that a skip pointer jumps to (src/core/main.cpp, GetSkipHeight). */
module SkipHeight {

  /** The bitwise and of two numbers. */
  function And(a: nat, b: nat): nat {
    if a == 0 || b == 0 then 0
    else 2 * And(a / 2, b / 2) + (if a % 2 == 1 && b % 2 == 1 then 1 else 0)
  }

  /** n & (n - 1). */
  function InvertLowestOne(n: nat): nat {
    if n == 0 then 0 else And(n, n - 1)
  }

  function GetSkipHeight(height: nat): nat {
    if height < 2 then 0
    else if height % 2 == 1 then InvertLowestOne(InvertLowestOne(height - 1)) + 1
    else InvertLowestOne(height)
  }

  lemma {:induction false} AndSelf(n: nat)
    ensures And(n, n) == n
  {
    if n > 0 {
      AndSelf(n / 2);
    }
  }

  /** It takes out the lowest bit that is set: that of an odd number is 1, and doubling the
      number doubles the bit. */
  lemma {:induction false} LowestOneIsTakenOut(n: nat)
    ensures InvertLowestOne(2 * n + 1) == 2 * n
    ensures InvertLowestOne(2 * n) == 2 * InvertLowestOne(n)
  {
    AndSelf(n);
    if n > 0 {
      assert (2 * n + 1) / 2 == n && (2 * n) / 2 == n && (2 * n - 1) / 2 == n - 1;
    }
  }

  lemma {:induction false} InvertIsBelow(n: nat)
    requires n > 0
    ensures InvertLowestOne(n) < n
  {
    LowestOneIsTakenOut(n / 2);
    if n % 2 == 0 {
      assert n == 2 * (n / 2);
      InvertIsBelow(n / 2);
    } else {
      assert n == 2 * (n / 2) + 1;
    }
  }

  /** A skip goes strictly back and not below the start. */
  lemma SkipGoesBack(height: nat)
    requires height >= 1
    ensures GetSkipHeight(height) < height
  {
    if height >= 2 {
      if height % 2 == 1 {
        var i := InvertLowestOne(height - 1);
        InvertIsBelow(height - 1);
        if i > 0 {
          InvertIsBelow(i);
        }
      } else {
        InvertIsBelow(height);
      }
    }
  }

  // ----- the walk to a height

  /** Where GetAncestor goes from height `walk`: it skips, unless the skip pointer of the
      predecessor leads further and not too far. */
  function NextHeight(walk: nat, height: nat): (r: nat)
    requires height < walk
    ensures height <= r < walk
  {
    SkipGoesBack(walk);
    var skip, skipPrev := GetSkipHeight(walk), GetSkipHeight(walk - 1);
    if skip == height || (skip > height && !(skipPrev < skip - 2 && skipPrev >= height)) then skip else walk - 1
  }

  /** How many steps it takes. */
  function Steps(walk: nat, height: nat): nat
    requires height <= walk
  {
    if walk == height then 0 else 1 + Steps(NextHeight(walk, height), height)
  }
}

/** The tree of block headers, with skip pointers (src/core/main.cpp, src/chain/chain.h). */
module BlockTree {
  import opened Common
  import opened SkipHeight

  /** CBlockIndex: a block is known by its place in the tree, and so are its predecessor and
      the further one it can skip to. */
  datatype Block = Block(prev: int, skip: int, height: int, time: int)

  type Tree = seq<Block>

  predicate IsBlock(t: Tree, b: int) {
    0 <= b < |t|
  }

  /** Parents come first, and heights count the steps from a block without one. */
  predicate Grown(t: Tree) {
    forall b {:trigger t[b].prev} :: 0 <= b < |t| ==>
      && NONE <= t[b].prev < b
      && t[b].height == if t[b].prev == NONE then 0 else t[t[b].prev].height + 1
  }

  lemma {:induction false} HeightIsNat(t: Tree, b: int)
    requires Grown(t) && IsBlock(t, b)
    ensures t[b].height >= 0
    decreases b
  {
    if t[b].prev != NONE {
      HeightIsNat(t, t[b].prev);
    }
  }

  /** Walking predecessors down to a height. */
  function Walk(t: Tree, b: int, height: int): (r: int)
    requires Grown(t) && NONE <= b < |t|
    ensures NONE <= r <= b
    decreases b
  {
    if b == NONE || t[b].height <= height then b else Walk(t, t[b].prev, height)
  }

  lemma {:induction false} WalkArrives(t: Tree, b: int, height: int)
    requires Grown(t) && IsBlock(t, b) && 0 <= height <= t[b].height
    ensures IsBlock(t, Walk(t, b, height)) && t[Walk(t, b, height)].height == height
    decreases b
  {
    if t[b].height > height {
      WalkArrives(t, t[b].prev, height);
    }
  }

  lemma {:induction false} WalkTwice(t: Tree, b: int, high: int, low: int)
    requires Grown(t) && NONE <= b < |t| && low <= high
    ensures Walk(t, Walk(t, b, high), low) == Walk(t, b, low)
    decreases b
  {
    if b != NONE && t[b].height > high {
      WalkTwice(t, t[b].prev, high, low);
    }
  }

  /** Each skip pointer leads to the ancestor at the height meant for it. */
  predicate Skips(t: Tree)
    requires Grown(t)
  {
    forall b :: 0 <= b < |t| ==>
      t[b].skip == if t[b].prev == NONE then NONE else Walk(t, t[b].prev, GetSkipHeight(HeightOf(t, b)))
  }

  function HeightOf(t: Tree, b: int): nat
    requires Grown(t) && IsBlock(t, b)
  {
    HeightIsNat(t, b);
    t[b].height
  }

  predicate IsTree(t: Tree) {
    Grown(t) && Skips(t)
  }

  /** The skip pointer of a block above the start is never null, and it can be followed as
      long as it does not lead too far. */
  lemma SkipLeadsBack(t: Tree, b: int, height: int)
    requires IsTree(t) && IsBlock(t, b) && 0 <= height <= GetSkipHeight(HeightOf(t, b)) && height < t[b].height
    ensures IsBlock(t, t[b].skip) && t[b].skip < b
    ensures t[t[b].skip].height == GetSkipHeight(HeightOf(t, b)) < t[b].height
    ensures Walk(t, t[b].skip, height) == Walk(t, b, height)
  {
    var skip := GetSkipHeight(HeightOf(t, b));
    SkipGoesBack(t[b].height);
    WalkArrives(t, t[b].prev, skip);
    WalkTwice(t, t[b].prev, skip, height);
  }

  /** CBlockIndex::GetAncestor: the skip list gives what walking would. */
  method GetAncestor(t: Tree, b: int, height: int) returns (r: int, ghost steps: nat)
    requires IsTree(t) && IsBlock(t, b)
    ensures r == if 0 <= height <= t[b].height then Walk(t, b, height) else NONE
    ensures 0 <= height <= t[b].height ==> steps == Steps(t[b].height, height)
    ensures 0 <= height <= t[b].height ==> IsBlock(t, r) && t[r].height == height
  {
    hide Skips;
    if height > t[b].height || height < 0 {
      return NONE, 0;
    }
    WalkArrives(t, b, height);
    var walk, heightWalk := b, t[b].height;
    steps := 0;
    while heightWalk > height
      invariant IsBlock(t, walk) && heightWalk == t[walk].height >= height
      invariant steps + Steps(heightWalk, height) == Steps(t[b].height, height)
      invariant Walk(t, walk, height) == Walk(t, b, height)
      decreases heightWalk
    {
      var heightSkip := GetSkipHeight(heightWalk);
      var heightSkipPrev := GetSkipHeight(heightWalk - 1);
      if heightSkip == height ||
         (heightSkip > height && !(heightSkipPrev < heightSkip - 2 && heightSkipPrev >= height)) {
        SkipLeadsBack(t, walk, height);
        walk := t[walk].skip;
        heightWalk := heightSkip;
      } else {
        walk := t[walk].prev;
        heightWalk := heightWalk - 1;
      }
      steps := steps + 1;
    }
    r := walk;
  }

  // ----- growing

  /** The tree with one more block. */
  function WithBlock(t: Tree, prev: int, time: int): (r: Tree)
    requires Grown(t) && NONE <= prev < |t|
    ensures Grown(r)
  {
    if prev == NONE then t + [Block(NONE, NONE, 0, time)]
    else
      var height := HeightOf(t, prev) + 1;
      t + [Block(prev, Walk(t, prev, GetSkipHeight(height)), height, time)]
  }

  /** What is there does not change when the tree grows. */
  lemma {:induction false} WalkStays(t: Tree, more: Tree, b: int, height: int)
    requires Grown(t) && Grown(t + more) && NONE <= b < |t|
    ensures Walk(t + more, b, height) == Walk(t, b, height)
    decreases b
  {
    if b != NONE {
      assert (t + more)[b] == t[b];
      if t[b].height > height {
        WalkStays(t, more, t[b].prev, height);
      }
    }
  }

  lemma WithBlockIsTree(t: Tree, prev: int, time: int)
    requires IsTree(t) && NONE <= prev < |t|
    ensures IsTree(WithBlock(t, prev, time))
  {
    var t' := WithBlock(t, prev, time);
    var more := t'[|t|..];
    assert t' == t + more;
    forall b | 0 <= b < |t'|
      ensures t'[b].skip == if t'[b].prev == NONE then NONE else Walk(t', t'[b].prev, GetSkipHeight(HeightOf(t', b)))
    {
      if t'[b].prev != NONE {
        WalkStays(t, more, t'[b].prev, GetSkipHeight(HeightOf(t', b)));
      }
    }
  }

  /** mapBlockIndex. */
  class BlockIndex {
    var blocks: Tree

    constructor ()
      ensures blocks == [] && IsTree(blocks)
    {
      blocks := [];
    }

    /** AddToBlockIndex, with BuildSkip. */
    method Add(prev: int, time: int) returns (b: int)
      requires IsTree(blocks) && NONE <= prev < |blocks|
      modifies this
      ensures IsTree(blocks)
      ensures blocks == WithBlock(old(blocks), prev, time) && b == |old(blocks)|
    {
      WithBlockIsTree(blocks, prev, time);
      var height, skip := 0, NONE;
      if prev != NONE {
        HeightIsNat(blocks, prev);
        height := blocks[prev].height + 1;
        SkipGoesBack(height);
        ghost var steps;
        skip, steps := GetAncestor(blocks, prev, GetSkipHeight(height));
      }
      b := |blocks|;
      blocks := blocks + [Block(prev, skip, height, time)];
    }
  }

  // ----- common ancestors

  /** `a` is `b` or one of its ancestors. */
  predicate IsAncestor(t: Tree, a: int, b: int)
    requires Grown(t)
  {
    IsBlock(t, a) && IsBlock(t, b) && Walk(t, b, t[a].height) == a
  }

  /** There is one block without a predecessor. */
  predicate OneGenesis(t: Tree) {
    forall b :: 0 < b < |t| ==> t[b].prev != NONE
  }

  /** `r` is an ancestor of both, and no block above it is. */
  ghost predicate IsLastCommon(t: Tree, a: int, b: int, r: int)
    requires Grown(t)
  {
    && IsAncestor(t, r, a) && IsAncestor(t, r, b)
    && forall x {:trigger IsAncestor(t, x, a), IsAncestor(t, x, b)} ::
         IsAncestor(t, x, a) && IsAncestor(t, x, b) ==> t[x].height <= t[r].height
  }

  /** All branches lead to the genesis block. */
  lemma {:induction false} WalkToGenesis(t: Tree, b: int)
    requires Grown(t) && OneGenesis(t) && IsBlock(t, b)
    ensures Walk(t, b, 0) == 0 && t[0].height == 0
    decreases b
  {
    HeightIsNat(t, b);
    if t[b].height > 0 {
      WalkToGenesis(t, t[b].prev);
    } else if t[b].prev != NONE {
      HeightIsNat(t, t[b].prev);
      assert false;
    }
  }

  /** One step further down. */
  lemma AncestorOfAncestor(t: Tree, x: int, b: int)
    requires Grown(t) && IsAncestor(t, x, b) && t[x].prev != NONE
    ensures IsAncestor(t, t[x].prev, b)
  {
    WalkTwice(t, b, t[x].height, t[x].height - 1);
  }

  lemma {:induction false} AncestorIsNotAbove(t: Tree, x: int, b: int)
    requires Grown(t) && IsAncestor(t, x, b)
    ensures t[x].height <= t[b].height
  {
  }

  /** LastCommonAncestor: its final assertion holds, and it returns the highest block that
      both have. */
  method LastCommonAncestor(t: Tree, a: int, b: int) returns (r: int)
    requires IsTree(t) && OneGenesis(t) && IsBlock(t, a) && IsBlock(t, b)
    ensures IsLastCommon(t, a, b, r)
  {
    hide Skips;
    var pa, pb := a, b;
    ghost var steps;
    HeightIsNat(t, a);
    HeightIsNat(t, b);
    if t[pa].height > t[pb].height {
      pa, steps := GetAncestor(t, pa, t[pb].height);
    } else if t[pb].height > t[pa].height {
      pb, steps := GetAncestor(t, pb, t[pa].height);
    }
    ghost var top := t[pa].height;
    MeetStarts(t, a, b, top);
    while pa != pb && pa != NONE && pb != NONE
      invariant IsBlock(t, pa) && IsBlock(t, pb)
      invariant Meeting(t, a, b, pa, pb)
      decreases pa + 1
    {
      MeetGoesOn(t, a, b, pa, pb);
      pa := t[pa].prev;
      pb := t[pb].prev;
    }
    assert pa == pb;
    MeetEnds(t, a, b, pa);
    return pa;
  }

  /** Two walks at the same height, with nothing in common above. */
  ghost predicate Meeting(t: Tree, a: int, b: int, pa: int, pb: int)
    requires Grown(t) && IsBlock(t, pa) && IsBlock(t, pb)
  {
    && t[pa].height == t[pb].height
    && IsAncestor(t, pa, a) && IsAncestor(t, pb, b)
    && forall x {:trigger IsAncestor(t, x, a), IsAncestor(t, x, b)} ::
         IsAncestor(t, x, a) && IsAncestor(t, x, b) ==> t[x].height <= t[pa].height
  }

  lemma MeetStarts(t: Tree, a: int, b: int, top: int)
    requires Grown(t) && IsBlock(t, a) && IsBlock(t, b)
    requires 0 <= top && (top == t[a].height <= t[b].height || top == t[b].height <= t[a].height)
    ensures IsBlock(t, Walk(t, a, top)) && IsBlock(t, Walk(t, b, top))
    ensures Meeting(t, a, b, Walk(t, a, top), Walk(t, b, top))
  {
    WalkArrives(t, a, top);
    WalkArrives(t, b, top);
    forall x | IsAncestor(t, x, a) && IsAncestor(t, x, b) ensures t[x].height <= top {
      AncestorIsNotAbove(t, x, a);
      AncestorIsNotAbove(t, x, b);
    }
  }

  lemma TwoAreAboveGenesis(t: Tree, a: int, b: int)
    requires Grown(t) && OneGenesis(t) && IsBlock(t, a) && IsBlock(t, b) && t[a].height == t[b].height && a != b
    ensures t[a].prev != NONE && t[b].prev != NONE
  {
    HeightIsNat(t, a);
    HeightIsNat(t, b);
    if t[a].prev == NONE {
      HeightIsNat(t, t[b].prev);
    } else {
      HeightIsNat(t, t[a].prev);
    }
  }

  lemma OneAtEachHeight(t: Tree, x: int, y: int, b: int)
    requires Grown(t) && IsAncestor(t, x, b) && IsAncestor(t, y, b)
    ensures IsBlock(t, x) && IsBlock(t, y) && (t[x].height == t[y].height ==> x == y)
  {
  }

  lemma MeetGoesOn(t: Tree, a: int, b: int, pa: int, pb: int)
    requires Grown(t) && OneGenesis(t) && IsBlock(t, pa) && IsBlock(t, pb) && Meeting(t, a, b, pa, pb) && pa != pb
    ensures IsBlock(t, t[pa].prev) && IsBlock(t, t[pb].prev)
    ensures Meeting(t, a, b, t[pa].prev, t[pb].prev)
  {
    hide IsAncestor;
    TwoAreAboveGenesis(t, pa, pb);
    AncestorOfAncestor(t, pa, a);
    AncestorOfAncestor(t, pb, b);
    forall x | IsAncestor(t, x, a) && IsAncestor(t, x, b)
      ensures IsBlock(t, x) && t[x].height <= t[t[pa].prev].height
    {
      OneAtEachHeight(t, x, pa, a);
      OneAtEachHeight(t, x, pb, b);
    }
  }

  lemma MeetEnds(t: Tree, a: int, b: int, r: int)
    requires Grown(t) && IsBlock(t, r) && Meeting(t, a, b, r, r)
    ensures IsLastCommon(t, a, b, r)
  {
  }
}
