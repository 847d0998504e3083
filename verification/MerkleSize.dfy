/** The size of a serialized partial Merkle tree, and the guarantee that a comment in
    src/chain/merkleblock.h gives for it. */
module MerkleSize {
  import opened Powers
  import opened MerkleTree
  import opened PartialMerkle
  import opened CompactSize

  function FlagBytes(bits: nat): nat {
    (bits + 7) / 8
  }

  /** The number of txids, the hashes and the packed flags, each list with its length. */
  function SerializedSize(pr: Proof): nat {
    var bytes := FlagBytes(|pr.bits|);
    4 + SizeOf(|pr.hashes|) + 32 * |pr.hashes| + SizeOf(bytes) + bytes
  }

  /** 10 + ceil(32.25 * hashes). */
  function Guaranteed(hashes: nat): nat {
    10 + 32 * hashes + (hashes + 3) / 4
  }

  /** It is the number of bytes that are sent, with the flags packed. */
  lemma SizeIsWritten(pr: Proof, flags: Bytes)
    requires |flags| == FlagBytes(|pr.bits|)
    ensures |WriteTree(Sent(pr.n, pr.hashes, flags))| == SerializedSize(pr)
  {
    TreeSize(Sent(pr.n, pr.hashes, flags));
  }

  // ----- nodes with one child

  /** The levels below `h` with an odd number of nodes. */
  function OddsBelow(n: nat, h: nat): nat {
    if h == 0 then 0 else OddsBelow(n, h - 1) + TreeWidth(n, h - 1) % 2
  }

  /** Only the last node of a level can have one child, and it does when the level below is odd. */
  lemma LastChild(n: nat, h: nat, pos: nat)
    requires h > 0 && pos < TreeWidth(n, h)
    ensures 2 * pos < TreeWidth(n, h - 1)
    ensures pos + 1 == TreeWidth(n, h) ==>
              if TreeWidth(n, h - 1) % 2 == 1 then 2 * pos + 1 == TreeWidth(n, h - 1)
              else 2 * pos + 2 == TreeWidth(n, h - 1)
    ensures pos + 1 < TreeWidth(n, h) ==> 2 * pos + 2 < TreeWidth(n, h - 1)
  {
    hide *;
    WidthHalves(n, h - 1);
  }

  lemma {:induction false} OneChildBound(n: nat, mask: seq<bool>, h: nat, pos: nat)
    requires |mask| == n && pos < TreeWidth(n, h)
    ensures OneChildNodes(n, mask, h, pos) <= if pos + 1 == TreeWidth(n, h) then OddsBelow(n, h) else 0
    decreases h
  {
    hide TreeWidth, Shl, End, AnyMatch;
    if h > 0 {
      LastChild(n, h, pos);
      OneChildBound(n, mask, h - 1, 2 * pos);
      if 2 * pos + 1 < TreeWidth(n, h - 1) {
        OneChildBound(n, mask, h - 1, 2 * pos + 1);
      }
    }
  }

  predicate AllMatched(mask: seq<bool>) {
    forall i :: 0 <= i < |mask| ==> mask[i]
  }

  lemma SomeMatched(n: nat, mask: seq<bool>, h: nat, pos: nat)
    requires |mask| == n && AllMatched(mask) && pos < TreeWidth(n, h)
    ensures Shl(pos, h) < End(n, h, pos) <= n && AnyMatch(mask, Shl(pos, h), End(n, h, pos))
  {
    hide TreeWidth;
    NodeExists(n, h, pos);
    ShlAdd(pos, 1, h);
    assert mask[Shl(pos, h)];
  }

  /** With every txid matched, every odd level makes one. */
  lemma {:induction false} OneChildAll(n: nat, mask: seq<bool>, h: nat, pos: nat)
    requires |mask| == n && AllMatched(mask) && pos < TreeWidth(n, h)
    ensures OneChildNodes(n, mask, h, pos) == if pos + 1 == TreeWidth(n, h) then OddsBelow(n, h) else 0
    decreases h
  {
    hide TreeWidth, Shl, End, AnyMatch, AllMatched;
    if h > 0 {
      LastChild(n, h, pos);
      SomeMatched(n, mask, h, pos);
      OneChildAll(n, mask, h - 1, 2 * pos);
      if 2 * pos + 1 < TreeWidth(n, h - 1) {
        OneChildAll(n, mask, h - 1, 2 * pos + 1);
      }
    }
  }

  /** And every txid is a hash. */
  lemma {:induction false} HashesAll(hash: Combine, txids: seq<Hash>, mask: seq<bool>, h: nat, pos: nat)
    requires |mask| == |txids| && AllMatched(mask) && pos < TreeWidth(|txids|, h)
    ensures |Build(hash, txids, mask, h, pos).hashes| == End(|txids|, h, pos) - Shl(pos, h)
    decreases h
  {
    hide Build, TreeWidth, Shl, CalcHash, AllMatched, End, AnyMatch;
    SomeMatched(|txids|, mask, h, pos);
    if h > 0 {
      BuildInner(hash, txids, mask, h, pos);
      Children(|txids|, h, pos);
      HashesAll(hash, txids, mask, h - 1, 2 * pos);
      if 2 * pos + 1 < TreeWidth(|txids|, h - 1) {
        HashesAll(hash, txids, mask, h - 1, 2 * pos + 1);
      }
    } else {
      BuildLeaf(hash, txids, mask, h, pos);
      OneTxid(|txids|, pos);
    }
  }

  lemma OneTxid(n: nat, pos: nat)
    requires pos < TreeWidth(n, 0)
    ensures End(n, 0, pos) == Shl(pos, 0) + 1
  {
    WidthHalves(n, 0);
  }

  lemma {:induction false} OddsAtMost(n: nat, h: nat)
    ensures OddsBelow(n, h) <= h
  {
    if h > 0 {
      OddsAtMost(n, h - 1);
    }
  }

  lemma {:induction false} HeightIsFirst(n: nat, from: nat, h: nat)
    requires from <= h < HeightFrom(n, from)
    ensures TreeWidth(n, h) > 1
    decreases h - from
  {
    hide TreeWidth;
    if from < h {
      WidthShrinks(n, from);
      HeightIsFirst(n, from + 1, h);
    }
  }

  /** There are fewer one-child nodes than levels above the txids: the root has two children. */
  lemma OneChildBelowHeight(n: nat, mask: seq<bool>)
    requires |mask| == n > 0
    ensures TreeWidth(n, TreeHeight(n)) == 1
    ensures OneChildNodes(n, mask, TreeHeight(n), 0) <= OddsBelow(n, TreeHeight(n))
    ensures TreeHeight(n) > 0 ==> OddsBelow(n, TreeHeight(n)) < TreeHeight(n)
    ensures TreeHeight(n) == 0 ==> OddsBelow(n, TreeHeight(n)) == 0
  {
    hide TreeWidth, OneChildNodes;
    var h := TreeHeight(n);
    RootCovers(n);
    OneChildBound(n, mask, h, 0);
    if h > 0 {
      HeightIsFirst(n, 0, h - 1);
      WidthHalves(n, h - 1);
      OddsAtMost(n, h - 1);
    }
  }

  // ----- the guarantee

  /** The size, and when it is as guaranteed, by the hashes and the one-child nodes. */
  lemma SizeIsAsGuaranteedIff(hash: Combine, txids: seq<Hash>, mask: seq<bool>)
    requires |mask| == |txids| > 0
    ensures TreeWidth(|txids|, TreeHeight(|txids|)) == 1
    ensures var pr := BuildProof(hash, txids, mask);
            var hashes, k := |pr.hashes|, OneChildNodes(|txids|, mask, TreeHeight(|txids|), 0);
            var bytes := (2 * hashes + 6 + k) / 8;
            && SerializedSize(pr) == 4 + SizeOf(hashes) + 32 * hashes + SizeOf(bytes) + bytes
            && (SerializedSize(pr) <= Guaranteed(hashes) <==>
                  SizeOf(hashes) + SizeOf(bytes) + bytes <= 6 + (hashes + 3) / 4)
  {
    hide TreeWidth, Build, BuildProof, OneChildNodes, TreeHeight, SizeOf;
    BuildProofUnfolds(hash, txids, mask);
    BitCount(hash, txids, mask, TreeHeight(|txids|), 0);
  }

  /** It is for fewer than 253 hashes, in trees of a height up to 32. */
  lemma SmallProofsFit(hash: Combine, txids: seq<Hash>, mask: seq<bool>)
    requires |mask| == |txids| > 0 && TreeHeight(|txids|) <= 32
    requires |BuildProof(hash, txids, mask).hashes| < 253
    ensures SerializedSize(BuildProof(hash, txids, mask)) <= Guaranteed(|BuildProof(hash, txids, mask).hashes|)
  {
    hide TreeWidth, BuildProof, OneChildNodes, TreeHeight, SerializedSize, Guaranteed, OddsBelow;
    SizeIsAsGuaranteedIff(hash, txids, mask);
    OneChildBelowHeight(|txids|, mask);
    var hashes := |BuildProof(hash, txids, mask).hashes|;
    var k := OneChildNodes(|txids|, mask, TreeHeight(|txids|), 0);
    assert (2 * hashes + 6 + k) / 8 <= (hashes + 3) / 4 + 4;
  }

  /** From 1009 hashes up to 65535 it is if and only if the one-child nodes fit into the last byte
      of flags, and beyond that never. */
  lemma LargeProofsFitIff(hash: Combine, txids: seq<Hash>, mask: seq<bool>)
    requires |mask| == |txids| > 0 && |BuildProof(hash, txids, mask).hashes| >= 1009
    ensures TreeWidth(|txids|, TreeHeight(|txids|)) == 1
    ensures var hashes := |BuildProof(hash, txids, mask).hashes|;
            SerializedSize(BuildProof(hash, txids, mask)) <= Guaranteed(hashes) <==>
              hashes <= 0xffff && (2 * hashes + 6) % 8 + OneChildNodes(|txids|, mask, TreeHeight(|txids|), 0) < 8
  {
    hide TreeWidth, BuildProof, OneChildNodes, TreeHeight, SerializedSize, Guaranteed;
    SizeIsAsGuaranteedIff(hash, txids, mask);
    SameByte(|BuildProof(hash, txids, mask).hashes|, OneChildNodes(|txids|, mask, TreeHeight(|txids|), 0));
  }

  lemma SameByte(hashes: nat, k: nat)
    ensures (2 * hashes + 6 + k) / 8 >= (hashes + 3) / 4
    ensures (2 * hashes + 6 + k) / 8 == (hashes + 3) / 4 <==> (2 * hashes + 6) % 8 + k < 8
  {
    assert (2 * hashes + 6) / 8 == (hashes + 3) / 4;
  }

  // ----- an input for which it is not

  lemma Halved(n: nat, h: nat, width: nat)
    requires TreeWidth(n, h) == width
    ensures TreeWidth(n, h + 1) == (width + 1) / 2
    ensures OddsBelow(n, h + 1) == OddsBelow(n, h) + width % 2
    ensures HeightFrom(n, h) == if width <= 1 then h else HeightFrom(n, h + 1)
  {
    hide TreeWidth;
    WidthHalves(n, h);
  }

  lemma Levels1025()
    ensures TreeHeight(1025) == 11 && OddsBelow(1025, 11) == 10
    ensures TreeWidth(1025, 11) == 1
  {
    hide *;
    WidthHalves(1025, 0);
    HeightStarts(1025);
    Halved(1025, 0, 1025); Halved(1025, 1, 513); Halved(1025, 2, 257); Halved(1025, 3, 129);
    Halved(1025, 4, 65); Halved(1025, 5, 33); Halved(1025, 6, 17); Halved(1025, 7, 9);
    Halved(1025, 8, 5); Halved(1025, 9, 3); Halved(1025, 10, 2); Halved(1025, 11, 1);
  }

  lemma HeightStarts(n: nat)
    ensures TreeHeight(n) == HeightFrom(n, 0) && OddsBelow(n, 0) == 0
  {
  }

  /** 1025 txids, all matched, take one byte more than guaranteed. */
  lemma GuaranteeFails(hash: Combine, txids: seq<Hash>, mask: seq<bool>)
    requires |mask| == |txids| == 1025 && AllMatched(mask)
    ensures SerializedSize(BuildProof(hash, txids, mask)) == 33068
    ensures Guaranteed(|BuildProof(hash, txids, mask).hashes|) == 33067
  {
    hide TreeWidth, Build, BuildProof, OneChildNodes, TreeHeight, SerializedSize, OddsBelow, AllMatched;
    Levels1025();
    RootCovers(1025);
    BuildProofUnfolds(hash, txids, mask);
    HashesAll(hash, txids, mask, 11, 0);
    OneChildAll(1025, mask, 11, 0);
    SizeIsAsGuaranteedIff(hash, txids, mask);
  }
}
