/** The Merkle tree over the txids of a block (src/chain/merkleblock.h,
    src/chain/merkleblock.cpp). Node `pos` at height `h` covers the txids from pos << h up to
    (pos + 1) << h, as far as there are any. The hash that combines two nodes is a parameter. */
module MerkleTree {
  import opened Powers

  type Hash = nat
  type Combine = (Hash, Hash) -> Hash

  /** No two pairs have the same hash. */
  ghost predicate Injective(hash: Combine) {
    forall a, b, c, d :: hash(a, b) == hash(c, d) ==> a == c && b == d
  }

  /** x >> h. */
  function Shr(x: nat, h: nat): nat
    decreases h
  {
    if h == 0 then x else Shr(x / 2, h - 1)
  }

  /** CalcTreeWidth: the number of nodes at height `h` over `n` txids. */
  function TreeWidth(n: nat, h: nat): nat {
    Shr(n + Shl(1, h) - 1, h)
  }

  lemma HalfOf(n: nat, s: nat)
    requires s > 0
    ensures (n + 2 * s - 1) / 2 == (n + 1) / 2 + s - 1
  {
  }

  lemma ShrUnfolds(x: nat, h: nat)
    ensures Shr(x, 0) == x && Shr(x, h + 1) == Shr(x / 2, h)
  {
  }

  lemma WidthIs(n: nat, h: nat)
    ensures Shl(1, h) >= 1 && TreeWidth(n, h) == Shr(n + Shl(1, h) - 1, h)
  {
    hide Shl, Shr;
  }

  lemma WidthUnfolds(n: nat, h: nat)
    ensures TreeWidth(n, 0) == n
    ensures TreeWidth(n, h + 1) == TreeWidth((n + 1) / 2, h)
  {
    hide *;
    WidthIs(n, 0);
    ShlNone(1);
    ShrUnfolds(n, 0);
    var s: nat := Shl(1, h);
    ShlStep(1, h);
    WidthIs(n, h + 1);
    WidthIs((n + 1) / 2, h);
    ShrUnfolds(n + 2 * s - 1, h);
    HalfOf(n, s);
  }

  /** One level up there are half as many nodes, rounded up. */
  lemma {:induction false} WidthHalves(n: nat, h: nat)
    ensures TreeWidth(n, 0) == n
    ensures TreeWidth(n, h + 1) == TreeWidth((n + 1) / 2, h)
    ensures TreeWidth(n, h + 1) == (TreeWidth(n, h) + 1) / 2
  {
    hide TreeWidth;
    WidthUnfolds(n, h);
    WidthUnfolds((n + 1) / 2, 0);
    if h > 0 {
      WidthUnfolds(n, h - 1);
      WidthHalves((n + 1) / 2, h - 1);
      WidthHalves(n, h - 1);
    }
  }

  /** A node exists exactly when its first txid does. */
  lemma {:induction false} NodeExists(n: nat, h: nat, pos: nat)
    ensures pos < TreeWidth(n, h) <==> Shl(pos, h) < n
    decreases h
  {
    WidthHalves(n, h);
    if h > 0 {
      WidthHalves(n, h - 1);
      NodeExists(n, h - 1, 2 * pos);
    }
  }

  /** Where the txids of a node end. */
  function End(n: nat, h: nat, pos: nat): (r: nat)
    ensures r <= n
  {
    if Shl(pos + 1, h) < n then Shl(pos + 1, h) else n
  }

  /** The txids of a node are those of its left child, then those of its right child, which
      is missing exactly when the left one covers them all. */
  lemma Children(n: nat, h: nat, pos: nat)
    requires h > 0 && pos < TreeWidth(n, h)
    ensures Shl(pos, h) == Shl(2 * pos, h - 1)
    ensures End(n, h, pos) ==
              if 2 * pos + 1 < TreeWidth(n, h - 1) then End(n, h - 1, 2 * pos + 1) else End(n, h - 1, 2 * pos)
    ensures Shl(pos, h) <= End(n, h - 1, 2 * pos) <= End(n, h, pos)
    ensures 2 * pos < TreeWidth(n, h - 1)
    ensures 2 * pos + 1 < TreeWidth(n, h - 1) ==> Shl(2 * pos + 1, h - 1) == End(n, h - 1, 2 * pos)
    ensures Shl(pos, h) < End(n, h, pos) <= n
  {
    hide Shl, Shr, TreeWidth;
    ShlFirst(pos, h);
    ShlFirst(pos + 1, h);
    NodeExists(n, h, pos);
    NodeExists(n, h - 1, 2 * pos);
    NodeExists(n, h - 1, 2 * pos + 1);
    ShlAdd(2 * pos + 1, 1, h - 1);
    ShlAdd(2 * pos, 1, h - 1);
  }

  /** CalcHash. */
  function CalcHash(hash: Combine, txids: seq<Hash>, h: nat, pos: nat): Hash
    requires pos < TreeWidth(|txids|, h)
    decreases h
  {
    if h == 0 then
      WidthHalves(|txids|, 0);
      txids[pos]
    else
      Children(|txids|, h, pos);
      var left := CalcHash(hash, txids, h - 1, 2 * pos);
      var right := if 2 * pos + 1 < TreeWidth(|txids|, h - 1) then CalcHash(hash, txids, h - 1, 2 * pos + 1) else left;
      hash(left, right)
  }

  lemma WidthShrinks(n: nat, h: nat)
    requires TreeWidth(n, h) > 1
    ensures TreeWidth(n, h + 1) < TreeWidth(n, h)
  {
    WidthHalves(n, h);
  }

  /** The height of the root: the first at which there is at most one node. */
  function HeightFrom(n: nat, h: nat): (r: nat)
    ensures TreeWidth(n, r) <= 1
    decreases TreeWidth(n, h)
  {
    if TreeWidth(n, h) <= 1 then h else WidthShrinks(n, h); HeightFrom(n, h + 1)
  }

  function TreeHeight(n: nat): nat {
    HeightFrom(n, 0)
  }

  lemma {:induction false} WidthPositive(n: nat, h: nat)
    requires n > 0
    ensures TreeWidth(n, h) > 0
  {
    WidthHalves(n, 0);
    if h > 0 {
      WidthHalves(n, h - 1);
      WidthPositive(n, h - 1);
    }
  }

  /** The root covers everything. */
  lemma RootCovers(n: nat)
    requires n > 0
    ensures TreeWidth(n, TreeHeight(n)) == 1
    ensures Shl(0, TreeHeight(n)) == 0 && End(n, TreeHeight(n), 0) == n
  {
    var h := TreeHeight(n);
    WidthPositive(n, h);
    NodeExists(n, h, 1);
    ShlZero(h);
  }

  function Root(hash: Combine, txids: seq<Hash>): Hash
    requires txids != []
  {
    RootCovers(|txids|);
    CalcHash(hash, txids, TreeHeight(|txids|), 0)
  }

  /** Two nodes at the same height with the same hash start with the same txid. */
  lemma {:induction false} SameHashSameStart(hash: Combine, txids: seq<Hash>, h: nat, p: nat, q: nat)
    requires Injective(hash)
    requires p < TreeWidth(|txids|, h) && q < TreeWidth(|txids|, h)
    requires CalcHash(hash, txids, h, p) == CalcHash(hash, txids, h, q)
    ensures Shl(p, h) < |txids| && Shl(q, h) < |txids| && txids[Shl(p, h)] == txids[Shl(q, h)]
    decreases h
  {
    NodeExists(|txids|, h, p);
    NodeExists(|txids|, h, q);
    if h > 0 {
      Children(|txids|, h, p);
      Children(|txids|, h, q);
      SameHashSameStart(hash, txids, h - 1, 2 * p, 2 * q);
    }
  }
}
