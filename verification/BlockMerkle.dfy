/** The Merkle tree that a block is hashed with (src/primitives/block.cpp): level by level, the
    last hash of an odd level paired with itself. It gives the root that partial trees are checked
    against, branches prove positions, and the flag for repeated hashes is explained. */
module BlockMerkle {
  import opened MerkleTree

  // ----- levels

  /** The level above. */
  function Up(hash: Combine, level: seq<Hash>): (r: seq<Hash>)
    ensures |r| == (|level| + 1) / 2
  {
    seq((|level| + 1) / 2, i requires 0 <= i < (|level| + 1) / 2 =>
          hash(level[2 * i], level[if 2 * i + 1 < |level| then 2 * i + 1 else 2 * i]))
  }

  function Collapse(hash: Combine, level: seq<Hash>): Hash
    requires level != []
    decreases |level|
  {
    if |level| == 1 then level[0] else Collapse(hash, Up(hash, level))
  }

  /** How many levels lie above one of `n` hashes. */
  function Rounds(n: nat): nat {
    if n <= 1 then 0 else 1 + Rounds((n + 1) / 2)
  }

  /** All levels, the lowest first. */
  function Levels(hash: Combine, level: seq<Hash>): seq<Hash>
    decreases |level|
  {
    if |level| <= 1 then level else level + Levels(hash, Up(hash, level))
  }

  predicate LastTwoAgree(level: seq<Hash>) {
    |level| >= 2 && |level| % 2 == 0 && level[|level| - 2] == level[|level| - 1]
  }

  /** Some level ends in two equal hashes that are paired. */
  predicate Mutated(hash: Combine, level: seq<Hash>)
    decreases |level|
  {
    |level| > 1 && (LastTwoAgree(level) || Mutated(hash, Up(hash, level)))
  }

  // ----- the same tree as that of the partial trees

  function UpTimes(hash: Combine, txids: seq<Hash>, h: nat): seq<Hash> {
    if h == 0 then txids else Up(hash, UpTimes(hash, txids, h - 1))
  }

  /** Node `pos` of level `h`, whichever way it is computed. */
  lemma {:induction false} LevelIs(hash: Combine, txids: seq<Hash>, h: nat)
    ensures |UpTimes(hash, txids, h)| == TreeWidth(|txids|, h)
    ensures forall pos :: 0 <= pos < TreeWidth(|txids|, h) ==>
              UpTimes(hash, txids, h)[pos] == CalcHash(hash, txids, h, pos)
  {
    hide TreeWidth;
    WidthHalves(|txids|, h);
    if h > 0 {
      LevelIs(hash, txids, h - 1);
      WidthHalves(|txids|, h - 1);
    }
  }

  lemma {:induction false} CollapseFrom(hash: Combine, txids: seq<Hash>, h: nat)
    requires txids != []
    ensures UpTimes(hash, txids, h) != []
    ensures TreeWidth(|txids|, HeightFrom(|txids|, h)) == 1
    ensures Collapse(hash, UpTimes(hash, txids, h)) == CalcHash(hash, txids, HeightFrom(|txids|, h), 0)
    decreases TreeWidth(|txids|, h)
  {
    hide TreeWidth, CalcHash;
    LevelIs(hash, txids, h);
    WidthPositive(|txids|, h);
    if TreeWidth(|txids|, h) > 1 {
      WidthShrinks(|txids|, h);
      CollapseFrom(hash, txids, h + 1);
    }
  }

  /** The root of a block is the root that its partial trees are checked against. */
  lemma SameRoot(hash: Combine, txids: seq<Hash>)
    requires txids != []
    ensures Collapse(hash, txids) == Root(hash, txids)
  {
    CollapseFrom(hash, txids, 0);
  }

  // ----- lists with the same root

  /** Two levels with the same level above are the same, or one is the other with its last hash
      repeated. */
  lemma SameAbove(hash: Combine, s: seq<Hash>, t: seq<Hash>)
    requires Injective(hash) && |s| <= |t| && Up(hash, s) == Up(hash, t)
    ensures s == t || (|t| == |s| + 1 && s == t[..|s|] && LastTwoAgree(t))
  {
    forall i | 0 <= i < |s| ensures s[i] == t[i] {
      assert Up(hash, s)[i / 2] == Up(hash, t)[i / 2];
    }
    if |s| < |t| {
      assert Up(hash, s)[|s| / 2] == Up(hash, t)[|s| / 2];
    }
  }

  /** Lists with trees of the same height and the same root are equal, or the longer one is flagged. */
  lemma {:induction false} SameRootIsFlagged(hash: Combine, s: seq<Hash>, t: seq<Hash>)
    requires Injective(hash) && s != [] && |s| <= |t| && Rounds(|s|) == Rounds(|t|)
    requires Collapse(hash, s) == Collapse(hash, t)
    ensures s == t || (|s| < |t| && Mutated(hash, t))
    decreases |t|
  {
    if |t| > 1 {
      SameRootIsFlagged(hash, Up(hash, s), Up(hash, t));
      if Up(hash, s) == Up(hash, t) {
        SameAbove(hash, s, t);
      }
    }
  }

  /** Some level of more than two hashes ends in two that are equal. */
  predicate HasTwin(hash: Combine, level: seq<Hash>)
    decreases |level|
  {
    |level| > 2 && (LastTwoAgree(level) || HasTwin(hash, Up(hash, level)))
  }

  /** `s` is a shorter list whose tree has the same height and the same root. */
  ghost predicate IsTwin(hash: Combine, s: seq<Hash>, t: seq<Hash>) {
    0 < |s| < |t| && Rounds(|s|) == Rounds(|t|) && Collapse(hash, s) == Collapse(hash, t)
  }

  lemma {:induction false} TwinIsFlagged(hash: Combine, s: seq<Hash>, t: seq<Hash>)
    requires Injective(hash) && IsTwin(hash, s, t)
    ensures HasTwin(hash, t)
    decreases |t|
  {
    if |t| > 2 {
      if |Up(hash, s)| < |Up(hash, t)| {
        TwinIsFlagged(hash, Up(hash, s), Up(hash, t));
      } else {
        SameRootIsFlagged(hash, Up(hash, s), Up(hash, t));
        SameAbove(hash, s, t);
      }
    }
  }

  lemma UpOfPrefix(hash: Combine, t: seq<Hash>, m: nat)
    requires 2 * m <= |t|
    ensures Up(hash, t[..2 * m]) == Up(hash, t)[..m]
  {
  }

  lemma UpWithoutLast(hash: Combine, t: seq<Hash>)
    requires LastTwoAgree(t)
    ensures Up(hash, t[..|t| - 1]) == Up(hash, t)
  {
  }

  lemma {:induction false} FindTwin(hash: Combine, t: seq<Hash>) returns (s: seq<Hash>)
    requires HasTwin(hash, t)
    ensures IsTwin(hash, s, t) && s <= t
    decreases |t|
  {
    hide Up;
    if LastTwoAgree(t) {
      s := t[..|t| - 1];
      UpWithoutLast(hash, t);
    } else {
      var u := FindTwin(hash, Up(hash, t));
      s := t[..2 * |u|];
      UpOfPrefix(hash, t, |u|);
      assert Up(hash, s) == u;
    }
  }

  /** A shorter list has the same root at the same height, if and only if some level of more than
      two hashes ends in two that are equal. */
  lemma TwinIff(hash: Combine, t: seq<Hash>)
    requires Injective(hash)
    ensures (exists s :: IsTwin(hash, s, t)) <==> HasTwin(hash, t)
  {
    if HasTwin(hash, t) {
      var s := FindTwin(hash, t);
    } else if s :| IsTwin(hash, s, t) {
      TwinIsFlagged(hash, s, t);
    }
  }

  /** The flag says more: the two hashes below the root may be equal, which no other list need
      explain. */
  lemma {:induction false} FlagIff(hash: Combine, t: seq<Hash>)
    requires t != []
    ensures Mutated(hash, t) <==> HasTwin(hash, t) || (|t| > 1 && LastTwoAgree(UpTimes(hash, t, Rounds(|t|) - 1)))
    decreases |t|
  {
    if |t| > 2 {
      FlagIff(hash, Up(hash, t));
      UpFirst(hash, t, Rounds(|t|) - 2);
    }
  }

  lemma {:induction false} UpFirst(hash: Combine, t: seq<Hash>, h: nat)
    ensures UpTimes(hash, Up(hash, t), h) == UpTimes(hash, t, h + 1)
  {
    if h > 0 {
      UpFirst(hash, t, h - 1);
    }
  }

  // ----- lists of any height

  /** No txid is the hash of two others. */
  ghost predicate AreLeaves(hash: Combine, txids: seq<Hash>) {
    forall i, a, b :: 0 <= i < |txids| ==> txids[i] != hash(a, b)
  }

  lemma {:induction false} CollapseIsTop(hash: Combine, t: seq<Hash>)
    requires t != []
    ensures |UpTimes(hash, t, Rounds(|t|))| == 1 && Collapse(hash, t) == UpTimes(hash, t, Rounds(|t|))[0]
    decreases |t|
  {
    if |t| > 1 {
      CollapseIsTop(hash, Up(hash, t));
      UpFirst(hash, t, Rounds(|t|) - 1);
    }
  }

  lemma {:induction false} NeverEmpty(hash: Combine, t: seq<Hash>, h: nat)
    requires t != []
    ensures UpTimes(hash, t, h) != []
  {
    if h > 0 {
      NeverEmpty(hash, t, h - 1);
    }
  }

  lemma LeftEdge(hash: Combine, t: seq<Hash>, h: nat) returns (b: Hash)
    requires t != []
    ensures UpTimes(hash, t, h) != [] && UpTimes(hash, t, h + 1) != []
    ensures UpTimes(hash, t, h + 1)[0] == hash(UpTimes(hash, t, h)[0], b)
  {
    NeverEmpty(hash, t, h);
    NeverEmpty(hash, t, h + 1);
    var level := UpTimes(hash, t, h);
    b := level[if 1 < |level| then 1 else 0];
  }

  /** Down the left edge of two trees with the same root. */
  lemma {:induction false} SameDown(hash: Combine, s: seq<Hash>, t: seq<Hash>, h: nat, k: nat)
    requires Injective(hash) && s != [] && t != [] && h <= k
    requires UpTimes(hash, s, h) != [] && UpTimes(hash, t, k) != []
    requires UpTimes(hash, s, h)[0] == UpTimes(hash, t, k)[0]
    ensures UpTimes(hash, t, k - h) != [] && s[0] == UpTimes(hash, t, k - h)[0]
  {
    hide UpTimes, Injective;
    if h == 0 {
      Lowest(hash, s);
    } else {
      var b := LeftEdge(hash, s, h - 1);
      var d := LeftEdge(hash, t, k - 1);
      SamePairs(hash, UpTimes(hash, s, h - 1)[0], b, UpTimes(hash, t, k - 1)[0], d);
      SameDown(hash, s, t, h - 1, k - 1);
    }
  }

  lemma Lowest(hash: Combine, t: seq<Hash>)
    ensures UpTimes(hash, t, 0) == t
  {
  }

  lemma IsLeaf(hash: Combine, txids: seq<Hash>, a: Hash, b: Hash)
    requires AreLeaves(hash, txids) && txids != []
    ensures txids[0] != hash(a, b)
  {
  }

  lemma SameRootSameHeight(hash: Combine, s: seq<Hash>, t: seq<Hash>)
    requires Injective(hash) && s != [] && t != [] && AreLeaves(hash, s)
    requires Collapse(hash, s) == Collapse(hash, t)
    ensures Rounds(|s|) >= Rounds(|t|)
  {
    hide Collapse, Rounds, UpTimes, Injective, AreLeaves;
    CollapseIsTop(hash, s);
    CollapseIsTop(hash, t);
    var more := Rounds(|t|) - Rounds(|s|);
    if more > 0 {
      SameDown(hash, s, t, Rounds(|s|), Rounds(|t|));
      var b := LeftEdge(hash, t, more - 1);
      IsLeaf(hash, s, UpTimes(hash, t, more - 1)[0], b);
      assert false;
    }
  }

  /** If no txid is the hash of two others, the root and the flag together determine the list: two
      lists with the same root are equal, or the longer one is flagged. */
  lemma RootAndFlagBind(hash: Combine, s: seq<Hash>, t: seq<Hash>)
    requires Injective(hash) && s != [] && |s| <= |t| && AreLeaves(hash, s) && AreLeaves(hash, t)
    requires Collapse(hash, s) == Collapse(hash, t)
    ensures s == t || (|s| < |t| && Mutated(hash, t))
  {
    hide AreLeaves, Injective;
    SameRootSameHeight(hash, s, t);
    SameRootSameHeight(hash, t, s);
    SameRootIsFlagged(hash, s, t);
  }

  // ----- branches

  /** The sibling of a position on a level of `n` hashes: the last one may be its own. */
  function Sibling(index: nat, n: nat): (r: nat)
    requires n > 0
    ensures r < n
  {
    var other := if index % 2 == 0 then index + 1 else index - 1;
    if other < n then other else n - 1
  }

  /** The siblings on the way from a position to the root. */
  function Branch(hash: Combine, level: seq<Hash>, index: nat): (r: seq<Hash>)
    ensures |r| == Rounds(|level|)
    decreases |level|
  {
    if |level| <= 1 then [] else [level[Sibling(index, |level|)]] + Branch(hash, Up(hash, level), index / 2)
  }

  /** What a branch makes of a hash. */
  function Follow(hash: Combine, x: Hash, branch: seq<Hash>, index: nat): Hash
    decreases |branch|
  {
    if branch == [] then x
    else Follow(hash, if index % 2 == 1 then hash(branch[0], x) else hash(x, branch[0]), branch[1..], index / 2)
  }

  lemma OneUp(hash: Combine, level: seq<Hash>, index: nat)
    requires index < |level| && |level| > 1
    ensures var sibling := level[Sibling(index, |level|)];
            Up(hash, level)[index / 2] ==
            if index % 2 == 1 then hash(sibling, level[index]) else hash(level[index], sibling)
  {
  }

  lemma SamePairs(hash: Combine, a: Hash, b: Hash, c: Hash, d: Hash)
    requires Injective(hash)
    ensures hash(a, b) == hash(c, d) <==> a == c && b == d
  {
  }

  /** A hash and a branch of the right length give the root, if and only if the hash is the one at
      the position and the branch is that of the position. */
  lemma {:induction false} BranchProves(hash: Combine, level: seq<Hash>, index: nat, x: Hash, branch: seq<Hash>)
    requires Injective(hash) && index < |level| && |branch| == Rounds(|level|)
    ensures Follow(hash, x, branch, index) == Collapse(hash, level)
            <==> x == level[index] && branch == Branch(hash, level, index)
    decreases |level|
  {
    hide Injective, Up, Branch;
    if |level| > 1 {
      var above := if index % 2 == 1 then hash(branch[0], x) else hash(x, branch[0]);
      BranchProves(hash, Up(hash, level), index / 2, above, branch[1..]);
      OneUp(hash, level, index);
      SamePairs(hash, branch[0], x, level[Sibling(index, |level|)], level[index]);
      SamePairs(hash, x, branch[0], level[index], level[Sibling(index, |level|)]);
      BranchUp(hash, level, index);
      assert branch == [branch[0]] + branch[1..];
    }
  }

  // ----- the block

  class Block {
    const hash: Combine
    const txids: seq<Hash>
    var vMerkleTree: seq<Hash>

    constructor (hash: Combine, txids: seq<Hash>)
      ensures this.hash == hash && this.txids == txids && vMerkleTree == [] && Valid()
    {
      this.hash, this.txids, vMerkleTree := hash, txids, [];
    }

    /** The tree has not been built, or is that of the transactions. */
    predicate Valid()
      reads this
    {
      vMerkleTree == [] || vMerkleTree == Levels(hash, txids)
    }

    method BuildMerkleTree() returns (root: Hash, mutated: bool)
      modifies this
      ensures Valid() && vMerkleTree == Levels(hash, txids)
      ensures mutated <==> Mutated(hash, txids)
      ensures root == if txids == [] then 0 else Root(hash, txids)
    {
      hide Mutated, Levels, Collapse, Root;
      vMerkleTree, mutated := txids, false;
      var j, size := 0, |txids|;
      ghost var level := txids;
      while size > 1
        invariant 0 <= j && 0 <= size && j + size == |vMerkleTree| && vMerkleTree[j..] == level
        invariant size == 0 <==> txids == []
        invariant vMerkleTree[..j] + Levels(hash, level) == Levels(hash, txids)
        invariant mutated || Mutated(hash, level) <==> Mutated(hash, txids)
        invariant txids != [] ==> Collapse(hash, level) == Collapse(hash, txids)
        decreases size
      {
        LevelUp(hash, level, vMerkleTree[..j]);
        ghost var below := vMerkleTree;
        mutated := PushLevel(j, size, mutated);
        assert vMerkleTree[..j + size] == below[..j] + level;
        assert vMerkleTree[j + size..] == Up(hash, level);
        level := Up(hash, level);
        j := j + size;
        size := (size + 1) / 2;
      }
      Top(hash, level, vMerkleTree[..j]);
      assert vMerkleTree == vMerkleTree[..j] + vMerkleTree[j..];
      if txids != [] {
        SameRoot(hash, txids);
      }
      root := if vMerkleTree == [] then 0 else vMerkleTree[|vMerkleTree| - 1];
    }

    /** The inner loop: pushes the level above the last one. */
    method PushLevel(j: nat, size: nat, flag: bool) returns (mutated: bool)
      requires j + size == |vMerkleTree| && size > 1
      modifies this
      ensures vMerkleTree == old(vMerkleTree) + Up(hash, old(vMerkleTree)[j..])
      ensures mutated <==> flag || LastTwoAgree(old(vMerkleTree)[j..])
    {
      mutated := flag;
      ghost var was, level := vMerkleTree, vMerkleTree[j..];
      var i := 0;
      while i < size
        invariant i % 2 == 0 && i <= size + 1
        invariant vMerkleTree == was + Up(hash, level)[..i / 2]
        invariant mutated <==> flag || (i >= size && LastTwoAgree(level))
      {
        var i2 := if i + 1 < size then i + 1 else size - 1;
        if i2 == i + 1 && i2 + 1 == size && vMerkleTree[j + i] == vMerkleTree[j + i2] {
          mutated := true;
        }
        assert vMerkleTree[j + i] == level[i] && vMerkleTree[j + i2] == level[i2];
        vMerkleTree := vMerkleTree + [hash(vMerkleTree[j + i], vMerkleTree[j + i2])];
        assert Up(hash, level)[..i / 2 + 1] == Up(hash, level)[..i / 2] + [Up(hash, level)[i / 2]];
        i := i + 2;
      }
      assert Up(hash, level)[..i / 2] == Up(hash, level);
    }

    /** The branch of a position; the tree is built first if it has not been. */
    method GetMerkleBranch(index: nat) returns (branch: seq<Hash>)
      requires Valid()
      modifies this
      ensures Valid() && branch == Branch(hash, txids, index)
    {
      hide Levels, Branch, Mutated, Root, Up, Sibling, Rounds;
      if vMerkleTree == [] {
        var root, mutated := BuildMerkleTree();
      }
      branch := [];
      var i, j, size := index, 0, |txids|;
      ghost var level := txids;
      while size > 1
        invariant size == |level| && 0 <= j <= |vMerkleTree| && i >= 0
        invariant vMerkleTree == Levels(hash, txids)
        invariant vMerkleTree[j..] == Levels(hash, level)
        invariant branch + Branch(hash, level, i) == Branch(hash, txids, index)
        decreases size
      {
        BranchUp(hash, level, i);
        NextLevel(vMerkleTree, j, level, Levels(hash, Up(hash, level)));
        branch := branch + [vMerkleTree[j + Sibling(i, size)]];
        i := i / 2;
        level := Up(hash, level);
        j := j + size;
        size := (size + 1) / 2;
      }
      NoBranch(hash, level, i);
      assert branch + [] == branch;
    }
  }

  lemma LevelUp(hash: Combine, level: seq<Hash>, before: seq<Hash>)
    requires |level| > 1
    ensures Mutated(hash, level) <==> LastTwoAgree(level) || Mutated(hash, Up(hash, level))
    ensures Collapse(hash, level) == Collapse(hash, Up(hash, level))
    ensures before + Levels(hash, level) == before + level + Levels(hash, Up(hash, level))
  {
  }

  lemma Top(hash: Combine, level: seq<Hash>, before: seq<Hash>)
    requires |level| <= 1
    ensures !Mutated(hash, level) && Levels(hash, level) == level
    ensures level != [] ==> Collapse(hash, level) == level[0]
  {
  }

  lemma BranchUp(hash: Combine, level: seq<Hash>, index: nat)
    requires |level| > 1
    ensures Branch(hash, level, index) == [level[Sibling(index, |level|)]] + Branch(hash, Up(hash, level), index / 2)
    ensures Levels(hash, level) == level + Levels(hash, Up(hash, level))
  {
  }

  lemma NextLevel(tree: seq<Hash>, j: nat, level: seq<Hash>, rest: seq<Hash>)
    requires j <= |tree| && tree[j..] == level + rest
    ensures j + |level| <= |tree| && tree[j + |level|..] == rest
    ensures forall k :: 0 <= k < |level| ==> tree[j + k] == level[k]
  {
    assert forall k :: 0 <= k < |level| ==> tree[j..][k] == level[k];
    assert tree[j..][|level|..] == rest;
  }

  lemma NoBranch(hash: Combine, level: seq<Hash>, index: nat)
    requires |level| <= 1
    ensures Branch(hash, level, index) == []
  {
  }

  /** CheckMerkleBranch. The index -1 stands for no position. */
  method CheckMerkleBranch(hash: Combine, x: Hash, branch: seq<Hash>, index: int) returns (r: Hash)
    requires index >= -1
    ensures r == if index == -1 then 0 else Follow(hash, x, branch, index)
  {
    if index == -1 {
      return 0;
    }
    r := x;
    var i := index;
    for k := 0 to |branch|
      invariant i >= 0 && Follow(hash, r, branch[k..], i) == Follow(hash, x, branch, index)
    {
      assert branch[k..][1..] == branch[k + 1..];
      r := if i % 2 == 1 then hash(branch[k], r) else hash(r, branch[k]);
      i := i / 2;
    }
  }

  /** The whole way: a transaction's own branch leads from it to the root of its block. */
  method BranchRoundTrip(hash: Combine, txids: seq<Hash>, index: nat) returns (r: Hash)
    requires Injective(hash) && index < |txids|
    ensures r == Root(hash, txids)
  {
    var block := new Block(hash, txids);
    var branch := block.GetMerkleBranch(index);
    r := CheckMerkleBranch(hash, txids[index], branch, index);
    BranchProves(hash, txids, index, txids[index], branch);
    SameRoot(hash, txids);
  }
}
