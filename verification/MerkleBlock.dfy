/** CPartialMerkleTree as the object of src/chain/merkleblock.h: its fields, the recursive
    methods that fill and read them, and the packing of the flag bits into bytes. */
module MerkleBlock {
  import opened Common
  import opened Powers
  import opened MerkleTree
  import opened PartialMerkle

  // ----- bits in bytes

  /** 1 << k. */
  function Flag(k: nat): bv8
    requires k < 8
  {
    if k == 0 then 1 else if k == 1 then 2 else if k == 2 then 4 else if k == 3 then 8
    else if k == 4 then 16 else if k == 5 then 32 else if k == 6 then 64 else 128
  }

  predicate BitAt(b: bv8, k: nat)
    requires k < 8
  {
    b & Flag(k) != 0
  }

  lemma SetBit(b: bv8, k: nat, j: nat)
    requires k < 8 && j < 8
    ensures BitAt(b | Flag(k), j) <==> j == k || BitAt(b, j)
  {
  }

  /** Bit p of the flags is bit p % 8 of byte p / 8; the rest of the last byte is 0. */
  ghost predicate Packs(bits: seq<bool>, bytes: seq<bv8>) {
    && |bytes| == (|bits| + 7) / 8
    && forall p :: 0 <= p < 8 * |bytes| ==> BitAt(bytes[p / 8], p % 8) == (p < |bits| && bits[p])
  }

  /** The bytes after the first `p` bits. */
  ghost predicate PacksUpTo(bits: seq<bool>, bytes: seq<bv8>, p: nat) {
    && |bytes| == (|bits| + 7) / 8 && p <= |bits|
    && forall q :: 0 <= q < 8 * |bytes| ==> BitAt(bytes[q / 8], q % 8) == (q < p && bits[q])
  }

  lemma PackStep(bits: seq<bool>, bytes: seq<bv8>, p: nat)
    requires PacksUpTo(bits, bytes, p) && p < |bits|
    ensures p / 8 < |bytes|
    ensures PacksUpTo(bits, if bits[p] then bytes[p / 8 := bytes[p / 8] | Flag(p % 8)] else bytes, p + 1)
  {
    hide BitAt, Flag;
    var after := if bits[p] then bytes[p / 8 := bytes[p / 8] | Flag(p % 8)] else bytes;
    forall q | 0 <= q < 8 * |bytes| ensures BitAt(after[q / 8], q % 8) == (q < p + 1 && bits[q]) {
      assert BitAt(bytes[q / 8], q % 8) == (q < p && bits[q]);
      SetBit(bytes[q / 8], p % 8, q % 8);
    }
  }

  lemma NothingPacked(bits: seq<bool>)
    ensures PacksUpTo(bits, seq((|bits| + 7) / 8, _ => 0), 0)
  {
  }

  lemma AllPacked(bits: seq<bool>, bytes: seq<bv8>)
    requires PacksUpTo(bits, bytes, |bits|)
    ensures Packs(bits, bytes)
  {
    hide BitAt;
  }

  /** The packing loop of SerializationOp. */
  method Pack(bits: seq<bool>) returns (bytes: seq<bv8>)
    ensures Packs(bits, bytes)
  {
    hide PacksUpTo, Packs, Flag;
    bytes := seq((|bits| + 7) / 8, _ => 0);
    NothingPacked(bits);
    for p := 0 to |bits|
      invariant PacksUpTo(bits, bytes, p)
    {
      PackStep(bits, bytes, p);
      if bits[p] {
        bytes := bytes[p / 8 := bytes[p / 8] | Flag(p % 8)];
      }
    }
    AllPacked(bits, bytes);
  }

  /** The unpacking loop. */
  method Unpack(bytes: seq<bv8>) returns (bits: seq<bool>)
    ensures |bits| == 8 * |bytes|
    ensures forall p :: 0 <= p < |bits| ==> bits[p] == BitAt(bytes[p / 8], p % 8)
  {
    bits := [];
    for p := 0 to 8 * |bytes|
      invariant |bits| == p
      invariant forall q :: 0 <= q < p ==> bits[q] == BitAt(bytes[q / 8], q % 8)
    {
      bits := bits + [BitAt(bytes[p / 8], p % 8)];
    }
  }

  // ----- the object

  class PartialMerkleTree {
    const hash: Combine
    var nTransactions: nat
    var vBits: seq<bool>
    var vHash: seq<Hash>
    var fBad: bool

    ghost function View(): Proof
      reads this
    {
      Proof(nTransactions, vBits, vHash)
    }

    /** Builds the partial tree for a list of txids and a mask. */
    constructor (hash: Combine, txids: seq<Hash>, mask: seq<bool>)
      requires |mask| == |txids| > 0
      ensures View() == BuildProof(hash, txids, mask) && !fBad && this.hash == hash
    {
      this.hash, nTransactions, vBits, vHash, fBad := hash, |txids|, [], [], false;
      new;
      var height := FindHeight(|txids|);
      RootCovers(|txids|);
      TraverseAndBuild(height, 0, txids, mask);
    }

    /** Reads a serialized tree: the number of txids, the hashes and the packed flags. */
    constructor Read(hash: Combine, n: nat, hashes: seq<Hash>, bytes: seq<bv8>)
      ensures nTransactions == n && vHash == hashes && !fBad && this.hash == hash
      ensures |vBits| == 8 * |bytes|
      ensures forall p :: 0 <= p < |vBits| ==> vBits[p] == BitAt(bytes[p / 8], p % 8)
    {
      var bits := Unpack(bytes);
      this.hash, nTransactions, vBits, vHash, fBad := hash, n, bits, hashes, false;
    }

    method TraverseAndBuild(h: nat, pos: nat, txids: seq<Hash>, mask: seq<bool>)
      requires |mask| == |txids| == nTransactions && pos < TreeWidth(|txids|, h)
      modifies this`vBits, this`vHash
      ensures vBits == old(vBits) + Build(hash, txids, mask, h, pos).bits
      ensures vHash == old(vHash) + Build(hash, txids, mask, h, pos).hashes
      decreases h
    {
      hide Build, TreeWidth, Shl, End, AnyMatch, CalcHash;
      var any := HasMatch(mask, Shl(pos, h), End(nTransactions, h, pos));
      vBits := vBits + [any];
      if h == 0 || !any {
        BuildLeaf(hash, txids, mask, h, pos);
        vHash := vHash + [CalcHash(hash, txids, h, pos)];
      } else {
        BuildInner(hash, txids, mask, h, pos);
        TraverseAndBuild(h - 1, 2 * pos, txids, mask);
        if 2 * pos + 1 < TreeWidth(nTransactions, h - 1) {
          TraverseAndBuild(h - 1, 2 * pos + 1, txids, mask);
        }
      }
    }

    /** The counters go in and out; fBad is a field and only ever gets set. */
    method TraverseAndExtract(h: nat, pos: nat, bitsIn: nat, hashesIn: nat, matchesIn: seq<Hash>)
      returns (bits: nat, hashes: nat, matches: seq<Hash>, node: Hash)
      modifies this`fBad
      ensures (Cursor(bits, hashes, matches, fBad), node)
              == Extract(hash, View(), h, pos, Cursor(bitsIn, hashesIn, matchesIn, old(fBad)))
      decreases h
    {
      hide TreeWidth;
      bits, hashes, matches, node := bitsIn, hashesIn, matchesIn, 0;
      if bits >= |vBits| {
        fBad := true;
        return;
      }
      var flag := vBits[bits];
      bits := bits + 1;
      if h == 0 || !flag {
        if hashes >= |vHash| {
          fBad := true;
          return;
        }
        node := vHash[hashes];
        hashes := hashes + 1;
        if h == 0 && flag {
          matches := matches + [node];
        }
      } else {
        var left, right;
        bits, hashes, matches, left := TraverseAndExtract(h - 1, 2 * pos, bits, hashes, matches);
        if 2 * pos + 1 < TreeWidth(nTransactions, h - 1) {
          bits, hashes, matches, right := TraverseAndExtract(h - 1, 2 * pos + 1, bits, hashes, matches);
          if right == left {
            fBad := true;
          }
        } else {
          right := left;
        }
        node := hash(left, right);
      }
    }

    method ExtractMatches(maxBlockSize: nat) returns (root: Hash, matches: seq<Hash>)
      modifies this`fBad
      ensures (root, matches, fBad) == PartialMerkle.ExtractMatches(hash, View(), old(fBad), maxBlockSize)
    {
      if nTransactions == 0 || nTransactions > maxBlockSize / 60 || |vHash| > nTransactions || |vBits| < |vHash| {
        return 0, [];
      }
      var height := FindHeight(nTransactions);
      var bits, hashes;
      bits, hashes, matches, root := TraverseAndExtract(height, 0, 0, 0, []);
      if fBad || (bits + 7) / 8 != (|vBits| + 7) / 8 || hashes != |vHash| {
        root := 0;
      }
    }
  }

  method FindHeight(n: nat) returns (h: nat)
    ensures h == TreeHeight(n)
  {
    h := 0;
    while TreeWidth(n, h) > 1
      invariant HeightFrom(n, h) == TreeHeight(n)
      decreases TreeWidth(n, h)
    {
      WidthShrinks(n, h);
      h := h + 1;
    }
  }

  method HasMatch(mask: seq<bool>, lo: nat, hi: nat) returns (any: bool)
    requires hi <= |mask|
    ensures any == AnyMatch(mask, lo, hi)
  {
    any := false;
    var p := lo;
    while p < hi
      invariant lo <= p && (p <= hi || p == lo)
      invariant any <==> exists q :: lo <= q < p && mask[q]
    {
      any := any || mask[p];
      p := p + 1;
    }
  }

  /** The whole way of a filtered block: build, send as bytes, read, extract. */
  method SendAndReceive(hash: Combine, txids: seq<Hash>, mask: seq<bool>, maxBlockSize: nat)
    returns (root: Hash, matches: seq<Hash>, bad: bool)
    requires Injective(hash) && Distinct(txids) && |mask| == |txids| > 0
    requires |txids| <= maxBlockSize / 60
    ensures root == Root(hash, txids)
    ensures matches == Selected(txids, mask, 0, |txids|)
    ensures !bad
  {
    var sent := new PartialMerkleTree(hash, txids, mask);
    var bytes := Pack(sent.vBits);
    var received := new PartialMerkleTree.Read(hash, sent.nTransactions, sent.vHash, bytes);
    assert sent.vBits <= received.vBits;
    RoundTrip(hash, txids, mask, received.vBits, maxBlockSize);
    root, matches := received.ExtractMatches(maxBlockSize);
    bad := received.fBad;
  }
}
