/** The partial Merkle tree of src/chain/merkleblock.cpp: how it is built from a txid list and
    a mask, how it is read back, and what a reader can rely on. */
module PartialMerkle {
  import opened Common
  import opened Powers
  import opened MerkleTree

  /** A partial tree: the total number of txids, the flag bits and the stored hashes. */
  datatype Proof = Proof(n: nat, bits: seq<bool>, hashes: seq<Hash>)

  predicate AnyMatch(mask: seq<bool>, lo: nat, hi: nat)
    requires hi <= |mask|
  {
    exists p :: lo <= p < hi && mask[p]
  }

  /** The masked txids from `lo` up to `hi`, in order. */
  function Selected(txids: seq<Hash>, mask: seq<bool>, lo: nat, hi: nat): seq<Hash>
    requires hi <= |txids| == |mask|
  {
    if hi <= lo then []
    else Selected(txids, mask, lo, hi - 1) + if mask[hi - 1] then [txids[hi - 1]] else []
  }

  // ----- building

  datatype Encoded = Encoded(bits: seq<bool>, hashes: seq<Hash>)

  /** TraverseAndBuild: what it appends to vBits and vHash. */
  function Build(hash: Combine, txids: seq<Hash>, mask: seq<bool>, h: nat, pos: nat): (e: Encoded)
    requires |mask| == |txids| && pos < TreeWidth(|txids|, h)
    ensures e.bits != [] && e.hashes != []
    decreases h
  {
    var any := AnyMatch(mask, Shl(pos, h), End(|txids|, h, pos));
    if h == 0 || !any then
      Encoded([any], [CalcHash(hash, txids, h, pos)])
    else
      Children(|txids|, h, pos);
      var left := Build(hash, txids, mask, h - 1, 2 * pos);
      if 2 * pos + 1 < TreeWidth(|txids|, h - 1) then
        var right := Build(hash, txids, mask, h - 1, 2 * pos + 1);
        Encoded([true] + left.bits + right.bits, left.hashes + right.hashes)
      else
        Encoded([true] + left.bits, left.hashes)
  }

  function BuildProof(hash: Combine, txids: seq<Hash>, mask: seq<bool>): Proof
    requires |mask| == |txids| > 0
  {
    RootCovers(|txids|);
    var e := Build(hash, txids, mask, TreeHeight(|txids|), 0);
    Proof(|txids|, e.bits, e.hashes)
  }

  // ----- reading

  /** nBitsUsed, nHashUsed, vMatch and fBad. */
  datatype Cursor = Cursor(bits: nat, hashes: nat, matches: seq<Hash>, bad: bool)

  /** TraverseAndExtract: the new counters and the node's hash. */
  function Extract(hash: Combine, pr: Proof, h: nat, pos: nat, c: Cursor): (Cursor, Hash)
    decreases h
  {
    if c.bits >= |pr.bits| then (c.(bad := true), 0)
    else
      var flag := pr.bits[c.bits];
      var c1 := c.(bits := c.bits + 1);
      if h == 0 || !flag then
        if c1.hashes >= |pr.hashes| then (c1.(bad := true), 0)
        else
          var node := pr.hashes[c1.hashes];
          (c1.(hashes := c1.hashes + 1, matches := if h == 0 && flag then c1.matches + [node] else c1.matches), node)
      else
        var (c2, left) := Extract(hash, pr, h - 1, 2 * pos, c1);
        if 2 * pos + 1 < TreeWidth(pr.n, h - 1) then
          var (c3, right) := Extract(hash, pr, h - 1, 2 * pos + 1, c2);
          (c3.(bad := c3.bad || right == left), hash(left, right))
        else (c2, hash(left, left))
  }

  /** ExtractMatches: the root, or 0 on failure, the matches, and fBad afterwards. */
  function ExtractMatches(hash: Combine, pr: Proof, bad: bool, maxBlockSize: nat): (Hash, seq<Hash>, bool) {
    if pr.n == 0 || pr.n > maxBlockSize / 60 || |pr.hashes| > pr.n || |pr.bits| < |pr.hashes| then (0, [], bad)
    else
      var (c, root) := Extract(hash, pr, TreeHeight(pr.n), 0, Cursor(0, 0, [], bad));
      if c.bad || (c.bits + 7) / 8 != (|pr.bits| + 7) / 8 || c.hashes != |pr.hashes| then (0, c.matches, c.bad)
      else (root, c.matches, c.bad)
  }

  // ----- the round trip

  predicate At<T(==)>(s: seq<T>, off: nat, part: seq<T>) {
    off + |part| <= |s| && s[off..off + |part|] == part
  }

  lemma AtParts<T>(s: seq<T>, off: nat, a: seq<T>, b: seq<T>)
    requires At(s, off, a + b)
    ensures At(s, off, a) && At(s, off + |a|, b)
  {
    assert s[off..off + |a|] == (a + b)[..|a|];
    assert s[off + |a|..off + |a| + |b|] == (a + b)[|a|..];
  }

  lemma {:induction false} NothingSelected(txids: seq<Hash>, mask: seq<bool>, lo: nat, hi: nat)
    requires hi <= |txids| == |mask| && !AnyMatch(mask, lo, hi)
    ensures Selected(txids, mask, lo, hi) == []
  {
    if hi > lo {
      NothingSelected(txids, mask, lo, hi - 1);
    }
  }

  lemma {:induction false} SelectedSplits(txids: seq<Hash>, mask: seq<bool>, lo: nat, mid: nat, hi: nat)
    requires lo <= mid <= hi <= |txids| == |mask|
    ensures Selected(txids, mask, lo, hi) == Selected(txids, mask, lo, mid) + Selected(txids, mask, mid, hi)
  {
    if hi > mid {
      SelectedSplits(txids, mask, lo, mid, hi - 1);
    }
  }

  /** Siblings never have the same hash when the txids differ. */
  lemma SiblingsDiffer(hash: Combine, txids: seq<Hash>, h: nat, pos: nat)
    requires Injective(hash) && Distinct(txids)
    requires 2 * pos + 1 < TreeWidth(|txids|, h)
    ensures CalcHash(hash, txids, h, 2 * pos) != CalcHash(hash, txids, h, 2 * pos + 1)
  {
    if CalcHash(hash, txids, h, 2 * pos) == CalcHash(hash, txids, h, 2 * pos + 1) {
      SameHashSameStart(hash, txids, h, 2 * pos, 2 * pos + 1);
      ShlAdd(2 * pos, 1, h);
      assert false;
    }
  }

  /** The cursor after reading what Build wrote for a node. */
  ghost function Read(txids: seq<Hash>, mask: seq<bool>, e: Encoded, h: nat, pos: nat, c: Cursor): Cursor
    requires |mask| == |txids|
  {
    Cursor(c.bits + |e.bits|, c.hashes + |e.hashes|,
           c.matches + Selected(txids, mask, Shl(pos, h), End(|txids|, h, pos)), c.bad)
  }

  /** Reading the bits and hashes of a node gives its hash and its masked txids. */
  lemma {:induction false} ExtractBuilt(hash: Combine, txids: seq<Hash>, mask: seq<bool>, pr: Proof, h: nat, pos: nat,
                                        c: Cursor)
    requires Injective(hash) && Distinct(txids) && |mask| == |txids| == pr.n
    requires pos < TreeWidth(|txids|, h)
    requires At(pr.bits, c.bits, Build(hash, txids, mask, h, pos).bits)
    requires At(pr.hashes, c.hashes, Build(hash, txids, mask, h, pos).hashes)
    ensures Extract(hash, pr, h, pos, c)
            == (Read(txids, mask, Build(hash, txids, mask, h, pos), h, pos, c), CalcHash(hash, txids, h, pos))
    decreases h, 1
  {
    hide *;
    if h == 0 || !AnyMatch(mask, Shl(pos, h), End(|txids|, h, pos)) {
      ExtractBuiltLeaf(hash, txids, mask, pr, h, pos, c);
    } else {
      ExtractBuiltInner(hash, txids, mask, pr, h, pos, c);
    }
  }

  lemma AtFirst<T>(s: seq<T>, off: nat, part: seq<T>)
    requires At(s, off, part) && part != []
    ensures off < |s| && s[off] == part[0]
  {
    assert s[off..off + |part|][0] == part[0];
  }

  lemma ExtractBuiltLeaf(hash: Combine, txids: seq<Hash>, mask: seq<bool>, pr: Proof, h: nat, pos: nat, c: Cursor)
    requires |mask| == |txids| == pr.n && pos < TreeWidth(|txids|, h)
    requires h == 0 || !AnyMatch(mask, Shl(pos, h), End(|txids|, h, pos))
    requires At(pr.bits, c.bits, Build(hash, txids, mask, h, pos).bits)
    requires At(pr.hashes, c.hashes, Build(hash, txids, mask, h, pos).hashes)
    ensures Extract(hash, pr, h, pos, c)
            == (Read(txids, mask, Build(hash, txids, mask, h, pos), h, pos, c), CalcHash(hash, txids, h, pos))
  {
    hide Build, Extract, CalcHash, TreeWidth, Shl, End, AnyMatch, Selected, At;
    BuildLeaf(hash, txids, mask, h, pos);
    var e := Build(hash, txids, mask, h, pos);
    AtFirst(pr.bits, c.bits, e.bits);
    AtFirst(pr.hashes, c.hashes, e.hashes);
    ExtractLeaf(hash, pr, h, pos, c);
    SelectedAtStop(txids, mask, h, pos);
    var (c', node) := Extract(hash, pr, h, pos, c);
    var selected := Selected(txids, mask, Shl(pos, h), End(|txids|, h, pos));
    assert c'.matches == c.matches + selected by {
      assert selected == [] || c'.matches == c.matches + [node];
    }
    assert c' == Cursor(c.bits + |e.bits|, c.hashes + |e.hashes|, c.matches + selected, c.bad);
    assert c' == Read(txids, mask, e, h, pos, c);
  }

  lemma BuildLeaf(hash: Combine, txids: seq<Hash>, mask: seq<bool>, h: nat, pos: nat)
    requires |mask| == |txids| && pos < TreeWidth(|txids|, h)
    requires h == 0 || !AnyMatch(mask, Shl(pos, h), End(|txids|, h, pos))
    ensures Build(hash, txids, mask, h, pos)
            == Encoded([AnyMatch(mask, Shl(pos, h), End(|txids|, h, pos))], [CalcHash(hash, txids, h, pos)])
    ensures h == 0 ==> pos < |txids| && CalcHash(hash, txids, h, pos) == txids[pos]
  {
    WidthHalves(|txids|, 0);
  }

  lemma ExtractLeaf(hash: Combine, pr: Proof, h: nat, pos: nat, c: Cursor)
    requires c.bits < |pr.bits| && c.hashes < |pr.hashes| && (h == 0 || !pr.bits[c.bits])
    ensures var node := pr.hashes[c.hashes];
            Extract(hash, pr, h, pos, c) ==
            (Cursor(c.bits + 1, c.hashes + 1,
                    if h == 0 && pr.bits[c.bits] then c.matches + [node] else c.matches, c.bad), node)
  {
  }

  lemma SelectedAtLeaf(txids: seq<Hash>, mask: seq<bool>, pos: nat)
    requires |mask| == |txids| && pos < |txids|
    ensures Shl(pos, 0) == pos && End(|txids|, 0, pos) == pos + 1
    ensures AnyMatch(mask, pos, pos + 1) == mask[pos]
    ensures Selected(txids, mask, pos, pos + 1) == if mask[pos] then [txids[pos]] else []
  {
    assert Selected(txids, mask, pos, pos) == [];
  }

  lemma SelectedAtStop(txids: seq<Hash>, mask: seq<bool>, h: nat, pos: nat)
    requires |mask| == |txids| && pos < TreeWidth(|txids|, h)
    requires h == 0 || !AnyMatch(mask, Shl(pos, h), End(|txids|, h, pos))
    ensures var any := AnyMatch(mask, Shl(pos, h), End(|txids|, h, pos));
            && (h == 0 ==> pos < |txids|)
            && Selected(txids, mask, Shl(pos, h), End(|txids|, h, pos)) == if h == 0 && any then [txids[pos]] else []
  {
    if h == 0 {
      WidthHalves(|txids|, 0);
      SelectedAtLeaf(txids, mask, pos);
    } else {
      NothingSelected(txids, mask, Shl(pos, h), End(|txids|, h, pos));
    }
  }

  lemma BuildInner(hash: Combine, txids: seq<Hash>, mask: seq<bool>, h: nat, pos: nat)
    requires |mask| == |txids| && pos < TreeWidth(|txids|, h)
    requires h > 0 && AnyMatch(mask, Shl(pos, h), End(|txids|, h, pos))
    ensures 2 * pos < TreeWidth(|txids|, h - 1)
    ensures var left, leftHash := Build(hash, txids, mask, h - 1, 2 * pos), CalcHash(hash, txids, h - 1, 2 * pos);
            if 2 * pos + 1 < TreeWidth(|txids|, h - 1) then
              var right := Build(hash, txids, mask, h - 1, 2 * pos + 1);
              && Build(hash, txids, mask, h, pos)
                 == Encoded([true] + left.bits + right.bits, left.hashes + right.hashes)
              && CalcHash(hash, txids, h, pos) == hash(leftHash, CalcHash(hash, txids, h - 1, 2 * pos + 1))
            else
              && Build(hash, txids, mask, h, pos) == Encoded([true] + left.bits, left.hashes)
              && CalcHash(hash, txids, h, pos) == hash(leftHash, leftHash)
  {
    Children(|txids|, h, pos);
  }

  lemma ExtractInner(hash: Combine, pr: Proof, h: nat, pos: nat, c: Cursor)
    requires h > 0 && c.bits < |pr.bits| && pr.bits[c.bits]
    ensures var (c2, left) := Extract(hash, pr, h - 1, 2 * pos, c.(bits := c.bits + 1));
            Extract(hash, pr, h, pos, c) ==
            if 2 * pos + 1 < TreeWidth(pr.n, h - 1) then
              var (c3, right) := Extract(hash, pr, h - 1, 2 * pos + 1, c2);
              (c3.(bad := c3.bad || right == left), hash(left, right))
            else (c2, hash(left, left))
  {
  }

  lemma {:induction false} ExtractBuiltInner(hash: Combine, txids: seq<Hash>, mask: seq<bool>, pr: Proof, h: nat,
                                             pos: nat, c: Cursor)
    requires Injective(hash) && Distinct(txids) && |mask| == |txids| == pr.n
    requires pos < TreeWidth(|txids|, h)
    requires h > 0 && AnyMatch(mask, Shl(pos, h), End(|txids|, h, pos))
    requires At(pr.bits, c.bits, Build(hash, txids, mask, h, pos).bits)
    requires At(pr.hashes, c.hashes, Build(hash, txids, mask, h, pos).hashes)
    ensures Extract(hash, pr, h, pos, c)
            == (Read(txids, mask, Build(hash, txids, mask, h, pos), h, pos, c), CalcHash(hash, txids, h, pos))
    decreases h, 0
  {
    hide Build, Extract, CalcHash, Selected, TreeWidth, Shl, End, AnyMatch, Injective, Distinct, At;
    BuildInner(hash, txids, mask, h, pos);
    AtFirst(pr.bits, c.bits, Build(hash, txids, mask, h, pos).bits);
    ExtractInner(hash, pr, h, pos, c);
    Children(|txids|, h, pos);
    var left := Build(hash, txids, mask, h - 1, 2 * pos);
    var c1 := c.(bits := c.bits + 1);
    var mid := End(|txids|, h - 1, 2 * pos);
    if 2 * pos + 1 < TreeWidth(|txids|, h - 1) {
      var right := Build(hash, txids, mask, h - 1, 2 * pos + 1);
      assert [true] + left.bits + right.bits == [true] + (left.bits + right.bits);
      AtParts(pr.bits, c.bits, [true], left.bits + right.bits);
      AtParts(pr.bits, c1.bits, left.bits, right.bits);
      AtParts(pr.hashes, c.hashes, left.hashes, right.hashes);
      ExtractBuilt(hash, txids, mask, pr, h - 1, 2 * pos, c1);
      ExtractBuilt(hash, txids, mask, pr, h - 1, 2 * pos + 1, Read(txids, mask, left, h - 1, 2 * pos, c1));
      SiblingsDiffer(hash, txids, h - 1, pos);
      SelectedSplits(txids, mask, Shl(pos, h), mid, End(|txids|, h, pos));
      var one, two := Selected(txids, mask, Shl(pos, h), mid), Selected(txids, mask, mid, End(|txids|, h, pos));
      assert c.matches + one + two == c.matches + (one + two);
    } else {
      AtParts(pr.bits, c.bits, [true], left.bits);
      ExtractBuilt(hash, txids, mask, pr, h - 1, 2 * pos, c1);
    }
  }

  // ----- sizes

  /** The number of nodes that Build descends into and that have only one child. */
  function OneChildNodes(n: nat, mask: seq<bool>, h: nat, pos: nat): nat
    requires |mask| == n && pos < TreeWidth(n, h)
    decreases h
  {
    if h == 0 || !AnyMatch(mask, Shl(pos, h), End(n, h, pos)) then 0
    else
      Children(n, h, pos);
      OneChildNodes(n, mask, h - 1, 2 * pos)
      + if 2 * pos + 1 < TreeWidth(n, h - 1) then OneChildNodes(n, mask, h - 1, 2 * pos + 1) else 1
  }

  /** Bits are twice the hashes less one, plus one for every one-child node descended into. */
  lemma {:induction false} BitCount(hash: Combine, txids: seq<Hash>, mask: seq<bool>, h: nat, pos: nat)
    requires |mask| == |txids| && pos < TreeWidth(|txids|, h)
    ensures var e := Build(hash, txids, mask, h, pos);
            |e.bits| == 2 * |e.hashes| - 1 + OneChildNodes(|txids|, mask, h, pos)
    decreases h
  {
    hide Build, TreeWidth, Shl, CalcHash;
    if h > 0 && AnyMatch(mask, Shl(pos, h), End(|txids|, h, pos)) {
      BuildInner(hash, txids, mask, h, pos);
      BitCount(hash, txids, mask, h - 1, 2 * pos);
      if 2 * pos + 1 < TreeWidth(|txids|, h - 1) {
        BitCount(hash, txids, mask, h - 1, 2 * pos + 1);
      }
    } else {
      BuildLeaf(hash, txids, mask, h, pos);
    }
  }

  /** There are at most as many hashes as txids. */
  lemma {:induction false} HashCount(hash: Combine, txids: seq<Hash>, mask: seq<bool>, h: nat, pos: nat)
    requires |mask| == |txids| && pos < TreeWidth(|txids|, h)
    ensures |Build(hash, txids, mask, h, pos).hashes| <= End(|txids|, h, pos) - Shl(pos, h)
    decreases h
  {
    hide Build, TreeWidth, Shl, CalcHash;
    if h > 0 && AnyMatch(mask, Shl(pos, h), End(|txids|, h, pos)) {
      BuildInner(hash, txids, mask, h, pos);
      Children(|txids|, h, pos);
      HashCount(hash, txids, mask, h - 1, 2 * pos);
      if 2 * pos + 1 < TreeWidth(|txids|, h - 1) {
        HashCount(hash, txids, mask, h - 1, 2 * pos + 1);
      }
    } else {
      BuildLeaf(hash, txids, mask, h, pos);
      NodeExists(|txids|, h, pos);
      ShlAdd(pos, 1, h);
    }
  }

  lemma SplitProduct(a: nat, b: nat, h: nat)
    requires h > 0 && a + b >= 1
    ensures a * (h - 1) + b * (h - 1) + 2 <= 1 + (a + b) * h
  {
    assert (a + b) * h == a * (h - 1) + b * (h - 1) + (a + b);
  }

  lemma {:induction false} SomethingSelected(txids: seq<Hash>, mask: seq<bool>, lo: nat, hi: nat)
    requires hi <= |txids| == |mask| && AnyMatch(mask, lo, hi)
    ensures Selected(txids, mask, lo, hi) != []
  {
    if !mask[hi - 1] {
      assert AnyMatch(mask, lo, hi - 1);
      SomethingSelected(txids, mask, lo, hi - 1);
    }
  }

  /** At most one hash, plus the height for every match. */
  lemma {:induction false} HashesPerMatch(hash: Combine, txids: seq<Hash>, mask: seq<bool>, h: nat, pos: nat)
    requires |mask| == |txids| && pos < TreeWidth(|txids|, h)
    ensures |Build(hash, txids, mask, h, pos).hashes|
            <= 1 + |Selected(txids, mask, Shl(pos, h), End(|txids|, h, pos))| * h
    decreases h
  {
    hide Build, Selected, TreeWidth, Shl, End, CalcHash;
    var lo, hi := Shl(pos, h), End(|txids|, h, pos);
    if h > 0 && AnyMatch(mask, lo, hi) {
      BuildInner(hash, txids, mask, h, pos);
      Children(|txids|, h, pos);
      SomethingSelected(txids, mask, lo, hi);
      var mid := End(|txids|, h - 1, 2 * pos);
      HashesPerMatch(hash, txids, mask, h - 1, 2 * pos);
      if 2 * pos + 1 < TreeWidth(|txids|, h - 1) {
        HashesPerMatch(hash, txids, mask, h - 1, 2 * pos + 1);
        SelectedSplits(txids, mask, lo, mid, hi);
        SplitProduct(|Selected(txids, mask, lo, mid)|, |Selected(txids, mask, mid, hi)|, h);
      } else {
        SplitProduct(|Selected(txids, mask, lo, hi)|, 0, h);
      }
    } else {
      BuildLeaf(hash, txids, mask, h, pos);
      assert 0 <= |Selected(txids, mask, lo, hi)| * h;
    }
  }

  /** The bound of 2N - 1 bits on N hashes holds exactly when no one-child node was descended
      into. */
  lemma BitBound(hash: Combine, txids: seq<Hash>, mask: seq<bool>)
    requires |mask| == |txids| > 0
    ensures TreeWidth(|txids|, TreeHeight(|txids|)) == 1
    ensures var pr := BuildProof(hash, txids, mask);
            |pr.bits| <= 2 * |pr.hashes| - 1 <==> OneChildNodes(|txids|, mask, TreeHeight(|txids|), 0) == 0
  {
    hide *;
    RootCovers(|txids|);
    BitCount(hash, txids, mask, TreeHeight(|txids|), 0);
    BuildProofUnfolds(hash, txids, mask);
  }

  lemma BuildProofUnfolds(hash: Combine, txids: seq<Hash>, mask: seq<bool>)
    requires |mask| == |txids| > 0
    ensures TreeWidth(|txids|, TreeHeight(|txids|)) == 1
    ensures var pr, e := BuildProof(hash, txids, mask), Build(hash, txids, mask, TreeHeight(|txids|), 0);
            pr == Proof(|txids|, e.bits, e.hashes)
  {
    RootCovers(|txids|);
  }

  lemma ThreeTxids()
    ensures TreeWidth(3, 0) == 3 && TreeWidth(3, 1) == 2 && TreeWidth(3, 2) == 1 && TreeHeight(3) == 2
    ensures Shl(0, 2) == 0 && Shl(1, 1) == 2 && End(3, 2, 0) == 3 && End(3, 1, 1) == 3
  {
    assert Shl(1, 1) == 2 && Shl(2, 1) == 4 && Shl(1, 2) == 4;
    assert HeightFrom(3, 2) == 2 && HeightFrom(3, 1) == 2;
  }

  /** With three txids and the last one matched, the bound does not hold. */
  lemma BitBoundFails(hash: Combine, txids: seq<Hash>, mask: seq<bool>)
    requires |txids| == 3 && mask == [false, false, true]
    ensures |BuildProof(hash, txids, mask).bits| > 2 * |BuildProof(hash, txids, mask).hashes| - 1
  {
    hide Build, BuildProof, TreeWidth, TreeHeight, Shl, End, CalcHash;
    ThreeTxids();
    BitBound(hash, txids, mask);
    assert mask[2] && AnyMatch(mask, 0, 3) && AnyMatch(mask, 2, 3);
    Children(3, 2, 0);
    Children(3, 1, 1);
    assert OneChildNodes(3, mask, 1, 1) >= 1;
  }

  // ----- the two theorems

  /** For distinct txids, any mask and any padding to whole bytes, reading back what was built
      gives the root of the full tree and exactly the masked txids, in order. */
  lemma RoundTrip(hash: Combine, txids: seq<Hash>, mask: seq<bool>, bits: seq<bool>, maxBlockSize: nat)
    requires Injective(hash) && Distinct(txids) && |mask| == |txids| > 0
    requires |txids| <= maxBlockSize / 60
    requires BuildProof(hash, txids, mask).bits <= bits
    requires (|BuildProof(hash, txids, mask).bits| + 7) / 8 == (|bits| + 7) / 8
    ensures ExtractMatches(hash, BuildProof(hash, txids, mask).(bits := bits), false, maxBlockSize)
            == (Root(hash, txids), Selected(txids, mask, 0, |txids|), false)
  {
    var n, h := |txids|, TreeHeight(|txids|);
    RootCovers(n);
    var pr := BuildProof(hash, txids, mask).(bits := bits);
    var e := Build(hash, txids, mask, h, 0);
    assert At(pr.bits, 0, e.bits) && At(pr.hashes, 0, e.hashes);
    ExtractBuilt(hash, txids, mask, pr, h, 0, Cursor(0, 0, [], false));
    HashCount(hash, txids, mask, h, 0);
    BitCount(hash, txids, mask, h, 0);
    assert [] + Selected(txids, mask, 0, n) == Selected(txids, mask, 0, n);
  }

  /** `found` are the txids at the positions `where`, which increase from `lo` up to `hi`. */
  ghost predicate FoundAt(txids: seq<Hash>, found: seq<Hash>, where: seq<nat>, lo: nat, hi: nat) {
    && |where| == |found| && hi <= |txids|
    && (forall i :: 0 <= i < |where| ==> lo <= where[i] < hi && found[i] == txids[where[i]])
    && forall i, j :: 0 <= i < j < |where| ==> where[i] < where[j]
  }

  lemma FoundInParts(txids: seq<Hash>, f1: seq<Hash>, w1: seq<nat>, f2: seq<Hash>, w2: seq<nat>, lo: nat, mid: nat,
                     hi: nat)
    requires lo <= mid <= hi && FoundAt(txids, f1, w1, lo, mid) && FoundAt(txids, f2, w2, mid, hi)
    ensures FoundAt(txids, f1 + f2, w1 + w2, lo, hi)
  {
  }

  lemma {:induction false} BadStays(hash: Combine, pr: Proof, h: nat, pos: nat, c: Cursor)
    ensures c.bad ==> Extract(hash, pr, h, pos, c).0.bad
    decreases h
  {
    if h > 0 && c.bits < |pr.bits| && pr.bits[c.bits] {
      BadStays(hash, pr, h - 1, 2 * pos, c.(bits := c.bits + 1));
      BadStays(hash, pr, h - 1, 2 * pos + 1, Extract(hash, pr, h - 1, 2 * pos, c.(bits := c.bits + 1)).0);
    }
  }

  /** Whatever the bits and hashes are: if reading a node gives its true hash, then the matches
      read below it are txids of the list, in increasing positions. */
  lemma {:induction false} ExtractIsSound(hash: Combine, txids: seq<Hash>, pr: Proof, h: nat, pos: nat, c: Cursor)
    returns (found: seq<Hash>, where: seq<nat>)
    requires Injective(hash) && pr.n == |txids| && pos < TreeWidth(|txids|, h)
    requires !Extract(hash, pr, h, pos, c).0.bad
    requires Extract(hash, pr, h, pos, c).1 == CalcHash(hash, txids, h, pos)
    ensures Extract(hash, pr, h, pos, c).0.matches == c.matches + found
    ensures FoundAt(txids, found, where, Shl(pos, h), End(|txids|, h, pos))
    decreases h
  {
    found, where := [], [];
    if h == 0 {
      WidthHalves(|txids|, 0);
      if pr.bits[c.bits] {
        found, where := [txids[pos]], [pos];
      }
    } else if pr.bits[c.bits] {
      found, where := ExtractIsSoundInner(hash, txids, pr, h, pos, c);
    }
  }

  lemma {:induction false} ExtractIsSoundInner(hash: Combine, txids: seq<Hash>, pr: Proof, h: nat, pos: nat, c: Cursor)
    returns (found: seq<Hash>, where: seq<nat>)
    requires Injective(hash) && pr.n == |txids| && pos < TreeWidth(|txids|, h)
    requires h > 0 && c.bits < |pr.bits| && pr.bits[c.bits]
    requires !Extract(hash, pr, h, pos, c).0.bad
    requires Extract(hash, pr, h, pos, c).1 == CalcHash(hash, txids, h, pos)
    ensures Extract(hash, pr, h, pos, c).0.matches == c.matches + found
    ensures FoundAt(txids, found, where, Shl(pos, h), End(|txids|, h, pos))
    decreases h, 0
  {
    hide Extract, CalcHash, TreeWidth, Shl, End, FoundAt, Injective;
    Children(|txids|, h, pos);
    ExtractInner(hash, pr, h, pos, c);
    CalcHashInner(hash, txids, h, pos);
    var c1 := c.(bits := c.bits + 1);
    var c2 := Extract(hash, pr, h - 1, 2 * pos, c1).0;
    var left, trueLeft := Extract(hash, pr, h - 1, 2 * pos, c1).1, CalcHash(hash, txids, h - 1, 2 * pos);
    if 2 * pos + 1 < TreeWidth(|txids|, h - 1) {
      BadStays(hash, pr, h - 1, 2 * pos + 1, c2);
      SamePair(hash, left, Extract(hash, pr, h - 1, 2 * pos + 1, c2).1, trueLeft,
               CalcHash(hash, txids, h - 1, 2 * pos + 1));
      var f1, w1 := ExtractIsSound(hash, txids, pr, h - 1, 2 * pos, c1);
      var f2, w2 := ExtractIsSound(hash, txids, pr, h - 1, 2 * pos + 1, c2);
      FoundInParts(txids, f1, w1, f2, w2, Shl(pos, h), End(|txids|, h - 1, 2 * pos), End(|txids|, h, pos));
      found, where := f1 + f2, w1 + w2;
      assert c.matches + f1 + f2 == c.matches + (f1 + f2);
    } else {
      SamePair(hash, left, left, trueLeft, trueLeft);
      found, where := ExtractIsSound(hash, txids, pr, h - 1, 2 * pos, c1);
    }
  }

  lemma SamePair(hash: Combine, a: Hash, b: Hash, c: Hash, d: Hash)
    requires Injective(hash) && hash(a, b) == hash(c, d)
    ensures a == c && b == d
  {
  }

  lemma CalcHashInner(hash: Combine, txids: seq<Hash>, h: nat, pos: nat)
    requires h > 0 && pos < TreeWidth(|txids|, h)
    ensures 2 * pos < TreeWidth(|txids|, h - 1)
    ensures var left := CalcHash(hash, txids, h - 1, 2 * pos);
            CalcHash(hash, txids, h, pos)
            == hash(left, if 2 * pos + 1 < TreeWidth(|txids|, h - 1)
                          then CalcHash(hash, txids, h - 1, 2 * pos + 1) else left)
  {
    Children(|txids|, h, pos);
  }

  /** Soundness: for any partial tree over as many txids, if reading it succeeds with the
      Merkle root of the list, then every match is a txid of the list, in increasing order of
      position. */
  lemma MatchesAreSound(hash: Combine, txids: seq<Hash>, pr: Proof, bad: bool, maxBlockSize: nat)
    returns (where: seq<nat>)
    requires Injective(hash) && pr.n == |txids| > 0
    requires var (root, _, _) := ExtractMatches(hash, pr, bad, maxBlockSize);
             root == Root(hash, txids) && root != 0
    ensures FoundAt(txids, ExtractMatches(hash, pr, bad, maxBlockSize).1, where, 0, |txids|)
  {
    RootCovers(|txids|);
    var found;
    found, where := ExtractIsSound(hash, txids, pr, TreeHeight(pr.n), 0, Cursor(0, 0, [], bad));
    assert [] + found == found;
  }

  // ----- what the stored hashes are

  datatype Node = Node(h: nat, pos: nat)

  /** `part` are the hashes of nodes that lie side by side and cover the txids from `lo` to `hi`. */
  ghost predicate Tiles(hash: Combine, txids: seq<Hash>, part: seq<Hash>, nodes: seq<Node>, lo: nat, hi: nat) {
    && |nodes| == |part| > 0
    && (forall i :: 0 <= i < |nodes| ==>
          && nodes[i].pos < TreeWidth(|txids|, nodes[i].h)
          && part[i] == CalcHash(hash, txids, nodes[i].h, nodes[i].pos))
    && Shl(nodes[0].pos, nodes[0].h) == lo
    && End(|txids|, nodes[|nodes| - 1].h, nodes[|nodes| - 1].pos) == hi
    && forall i :: 0 < i < |nodes| ==>
         Shl(nodes[i].pos, nodes[i].h) == End(|txids|, nodes[i - 1].h, nodes[i - 1].pos)
  }

  lemma TilesTogether(hash: Combine, txids: seq<Hash>, p1: seq<Hash>, n1: seq<Node>, p2: seq<Hash>, n2: seq<Node>,
                      lo: nat, mid: nat, hi: nat)
    requires Tiles(hash, txids, p1, n1, lo, mid) && Tiles(hash, txids, p2, n2, mid, hi)
    ensures Tiles(hash, txids, p1 + p2, n1 + n2, lo, hi)
  {
    hide Shl, End, TreeWidth, CalcHash;
  }

  lemma OneTile(hash: Combine, txids: seq<Hash>, h: nat, pos: nat)
    requires pos < TreeWidth(|txids|, h)
    ensures Tiles(hash, txids, [CalcHash(hash, txids, h, pos)], [Node(h, pos)], Shl(pos, h), End(|txids|, h, pos))
  {
    hide Shl, End, TreeWidth, CalcHash;
  }

  lemma OneChildIsLast(n: nat, h: nat, pos: nat)
    requires h > 0 && 2 * pos + 1 >= TreeWidth(n, h - 1)
    ensures End(n, h, pos) == n
  {
    hide TreeWidth;
    NodeExists(n, h - 1, 2 * pos + 1);
    ShlFirst(pos + 1, h);
    ShlAdd(2 * pos + 1, 1, h - 1);
  }

  /** Reading a node uses a hash at least, and one bit less than twice as many bits as hashes, plus
      one for each one-child node. Those are on the right edge, one to a level. */
  lemma {:induction false} ReadsAreBounded(hash: Combine, pr: Proof, h: nat, pos: nat, c: Cursor)
    requires pos < TreeWidth(pr.n, h) && !Extract(hash, pr, h, pos, c).0.bad
    ensures var c' := Extract(hash, pr, h, pos, c).0;
            var hashes, bits := c'.hashes - c.hashes, c'.bits - c.bits;
            && 0 < hashes && c'.hashes <= |pr.hashes| && c'.bits <= |pr.bits|
            && 2 * hashes - 1 <= bits <= 2 * hashes - 1 + if End(pr.n, h, pos) == pr.n then h else 0
    decreases h, 1
  {
    if h > 0 && pr.bits[c.bits] {
      ReadsAreBoundedInner(hash, pr, h, pos, c);
    }
  }

  lemma {:induction false} ReadsAreBoundedInner(hash: Combine, pr: Proof, h: nat, pos: nat, c: Cursor)
    requires pos < TreeWidth(pr.n, h) && !Extract(hash, pr, h, pos, c).0.bad
    requires h > 0 && c.bits < |pr.bits| && pr.bits[c.bits]
    ensures var c' := Extract(hash, pr, h, pos, c).0;
            var hashes, bits := c'.hashes - c.hashes, c'.bits - c.bits;
            && 0 < hashes && c'.hashes <= |pr.hashes| && c'.bits <= |pr.bits|
            && 2 * hashes - 1 <= bits <= 2 * hashes - 1 + if End(pr.n, h, pos) == pr.n then h else 0
    decreases h, 0
  {
    hide Extract, TreeWidth, Shl, End;
    Children(pr.n, h, pos);
    ExtractInner(hash, pr, h, pos, c);
    var c1 := c.(bits := c.bits + 1);
    var c2 := Extract(hash, pr, h - 1, 2 * pos, c1).0;
    if 2 * pos + 1 < TreeWidth(pr.n, h - 1) {
      BadStays(hash, pr, h - 1, 2 * pos + 1, c2);
      ReadsAreBounded(hash, pr, h - 1, 2 * pos, c1);
      ReadsAreBounded(hash, pr, h - 1, 2 * pos + 1, c2);
      NodeExists(pr.n, h - 1, 2 * pos + 1);
    } else {
      OneChildIsLast(pr.n, h, pos);
      ReadsAreBounded(hash, pr, h - 1, 2 * pos, c1);
    }
  }

  /** If reading a node gives its true hash, the stored hashes that were used are those of nodes
      that cover its txids. */
  lemma {:induction false} ExtractTiles(hash: Combine, txids: seq<Hash>, pr: Proof, h: nat, pos: nat, c: Cursor)
    returns (nodes: seq<Node>)
    requires Injective(hash) && pr.n == |txids| && pos < TreeWidth(|txids|, h)
    requires !Extract(hash, pr, h, pos, c).0.bad
    requires Extract(hash, pr, h, pos, c).1 == CalcHash(hash, txids, h, pos)
    ensures c.hashes <= Extract(hash, pr, h, pos, c).0.hashes <= |pr.hashes|
    ensures Tiles(hash, txids, pr.hashes[c.hashes..Extract(hash, pr, h, pos, c).0.hashes], nodes,
                  Shl(pos, h), End(|txids|, h, pos))
    decreases h, 1
  {
    hide CalcHash, TreeWidth, Shl, End, Injective, Tiles;
    if h > 0 && pr.bits[c.bits] {
      nodes := ExtractTilesInner(hash, txids, pr, h, pos, c);
    } else {
      nodes := [Node(h, pos)];
      OneTile(hash, txids, h, pos);
      assert pr.hashes[c.hashes..c.hashes + 1] == [CalcHash(hash, txids, h, pos)];
    }
  }

  lemma {:induction false} ExtractTilesInner(hash: Combine, txids: seq<Hash>, pr: Proof, h: nat, pos: nat, c: Cursor)
    returns (nodes: seq<Node>)
    requires Injective(hash) && pr.n == |txids| && pos < TreeWidth(|txids|, h)
    requires h > 0 && c.bits < |pr.bits| && pr.bits[c.bits]
    requires !Extract(hash, pr, h, pos, c).0.bad
    requires Extract(hash, pr, h, pos, c).1 == CalcHash(hash, txids, h, pos)
    ensures c.hashes <= Extract(hash, pr, h, pos, c).0.hashes <= |pr.hashes|
    ensures Tiles(hash, txids, pr.hashes[c.hashes..Extract(hash, pr, h, pos, c).0.hashes], nodes,
                  Shl(pos, h), End(|txids|, h, pos))
    decreases h, 0
  {
    hide Extract, CalcHash, TreeWidth, Shl, End, Tiles, Injective;
    Children(|txids|, h, pos);
    ExtractInner(hash, pr, h, pos, c);
    CalcHashInner(hash, txids, h, pos);
    var c1 := c.(bits := c.bits + 1);
    var c2 := Extract(hash, pr, h - 1, 2 * pos, c1).0;
    var left, trueLeft := Extract(hash, pr, h - 1, 2 * pos, c1).1, CalcHash(hash, txids, h - 1, 2 * pos);
    if 2 * pos + 1 < TreeWidth(|txids|, h - 1) {
      BadStays(hash, pr, h - 1, 2 * pos + 1, c2);
      SamePair(hash, left, Extract(hash, pr, h - 1, 2 * pos + 1, c2).1, trueLeft,
               CalcHash(hash, txids, h - 1, 2 * pos + 1));
      var n1 := ExtractTiles(hash, txids, pr, h - 1, 2 * pos, c1);
      var n2 := ExtractTiles(hash, txids, pr, h - 1, 2 * pos + 1, c2);
      nodes := n1 + n2;
      var to := Extract(hash, pr, h - 1, 2 * pos + 1, c2).0.hashes;
      TilesTogether(hash, txids, pr.hashes[c.hashes..c2.hashes], n1, pr.hashes[c2.hashes..to], n2,
                    Shl(pos, h), End(|txids|, h - 1, 2 * pos), End(|txids|, h, pos));
      assert pr.hashes[c.hashes..c2.hashes] + pr.hashes[c2.hashes..to] == pr.hashes[c.hashes..to];
    } else {
      SamePair(hash, left, left, trueLeft, trueLeft);
      nodes := ExtractTiles(hash, txids, pr, h - 1, 2 * pos, c1);
    }
  }

  /** No hash is stored in vain: if reading succeeds with the Merkle root of the list, then all the
      stored hashes are those of nodes that cover the whole list side by side. There are 2N - 1
      bits at least, and at most as many more as the tree is high, plus 7 of padding. */
  lemma StoredHashesCoverAll(hash: Combine, txids: seq<Hash>, pr: Proof, bad: bool, maxBlockSize: nat)
    returns (nodes: seq<Node>)
    requires Injective(hash) && pr.n == |txids| > 0
    requires var (root, _, _) := ExtractMatches(hash, pr, bad, maxBlockSize);
             root == Root(hash, txids) && root != 0
    ensures Tiles(hash, txids, pr.hashes, nodes, 0, |txids|)
    ensures 2 * |pr.hashes| - 1 <= |pr.bits| <= 2 * |pr.hashes| - 1 + TreeHeight(|txids|) + 7
  {
    hide Extract, CalcHash, TreeWidth, TreeHeight, Shl, End, Tiles;
    RootCovers(|txids|);
    var c := Cursor(0, 0, [], bad);
    nodes := ExtractTiles(hash, txids, pr, TreeHeight(pr.n), 0, c);
    ReadsAreBounded(hash, pr, TreeHeight(pr.n), 0, c);
    assert pr.hashes[0..|pr.hashes|] == pr.hashes;
  }
}
