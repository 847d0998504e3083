/** Transactions, as far as the coin set looks at them (src/primitives/transaction.h). */
module Transactions {
  import opened Common

  type Hash = nat

  /** A hash160 with the index type of its script: 2 for P2SH, 1 for P2PKH. */
  datatype Address = Address(kind: nat, bytes: nat)

  /** A scriptPubKey. The two verdicts that the coin set and the index ask of it are carried
      along: the address it pays to, if it has one of the two indexed forms, and whether it
      holds an OP_RETURN. A script can have both: the P2SH test accepts trailing bytes. */
  datatype Script = Script(code: nat, address: Option<Address>, unspendable: bool)

  const EMPTY_SCRIPT := Script(0, None, false)

  datatype TxOut = TxOut(value: int, script: Script) {
    predicate IsNull() { value == -1 }
  }

  const NULL_OUT := TxOut(-1, EMPTY_SCRIPT)

  datatype OutPoint = OutPoint(hash: Hash, n: nat)

  const NULL_OUTPOINT := OutPoint(0, 0xffff_ffff)

  datatype Tx = Tx(hash: Hash, version: int, vin: seq<OutPoint>, vout: seq<TxOut>) {
    predicate IsCoinBase() { |vin| == 1 && vin[0] == NULL_OUTPOINT }
  }
}

/** The coin set (src/storage/coins.h, src/storage/coins.cpp), the undo records of
    src/chain/undo.h, and what UpdateCoins and DisconnectBlock of src/core/main.cpp do to
    them. */
module CoinSet {
  import opened Common
  import opened Transactions

  /** The unspent outputs of one transaction. */
  datatype Coins = Coins(coinBase: bool, vout: seq<TxOut>, height: int, version: int) {
    predicate IsPruned() { forall i :: 0 <= i < |vout| ==> vout[i].IsNull() }
    predicate IsAvailable(n: nat) { n < |vout| && !vout[n].IsNull() }
  }

  const CLEARED := Coins(false, [], 0, 0)

  /** CTxInUndo: the height is nonzero exactly when the output was the last one. */
  datatype Undo = Undo(txout: TxOut, coinBase: bool, height: int, version: int)

  /** The coin set by txid. A transaction with nothing unspent is not in it: whether the
      cache keeps a pruned entry for it cannot be told through the view. */
  type View = map<Hash, Coins>

  // ----- one transaction's coins

  /** The length left after dropping spent outputs at the end. */
  function TrimmedLength(vout: seq<TxOut>): (k: nat)
    ensures k <= |vout|
    ensures forall i :: k <= i < |vout| ==> vout[i].IsNull()
    ensures k > 0 ==> !vout[k - 1].IsNull()
  {
    if vout == [] then 0
    else if vout[|vout| - 1].IsNull() then TrimmedLength(vout[..|vout| - 1])
    else |vout|
  }

  function Cleanup(vout: seq<TxOut>): seq<TxOut> {
    vout[..TrimmedLength(vout)]
  }

  function WithoutUnspendable(vout: seq<TxOut>): (r: seq<TxOut>)
    ensures |r| == |vout|
    ensures forall i :: 0 <= i < |vout| ==> r[i] == if vout[i].script.unspendable then NULL_OUT else vout[i]
  {
    seq(|vout|, i requires 0 <= i < |vout| => if vout[i].script.unspendable then NULL_OUT else vout[i])
  }

  function ClearUnspendable(vout: seq<TxOut>): seq<TxOut> {
    Cleanup(WithoutUnspendable(vout))
  }

  function FromTx(tx: Tx, height: int): Coins {
    Coins(tx.IsCoinBase(), ClearUnspendable(tx.vout), height, tx.version)
  }

  /** CCoins::Spend. */
  function Spend(c: Coins, n: nat): Option<(Coins, Undo)> {
    if !c.IsAvailable(n) then None
    else
      var vout := Cleanup(c.vout[n := NULL_OUT]);
      var undo :=
        if vout == [] then Undo(c.vout[n], c.coinBase, c.height, c.version)
        else Undo(c.vout[n], false, 0, 0);
      Some((c.(vout := vout), undo))
  }

  /** vector::resize to at least `n` entries. */
  function Widen(vout: seq<TxOut>, n: nat): (r: seq<TxOut>)
    ensures |r| >= n && |r| >= |vout|
  {
    if |vout| < n then vout + seq(n - |vout|, _ => NULL_OUT) else vout
  }

  /** What DisconnectBlock does to the coins of a spent output, and whether it found them
      as it expected. */
  function Restore(c: Coins, n: nat, undo: Undo): (Coins, bool) {
    var base := if undo.height != 0 then Coins(undo.coinBase, [], undo.height, undo.version) else c;
    var expected := if undo.height != 0 then c.IsPruned() else !c.IsPruned();
    (base.(vout := Widen(base.vout, n + 1)[n := undo.txout]), expected && !base.IsAvailable(n))
  }

  /** Coins as the set keeps them: trimmed, spent outputs null, at a height above 0. */
  predicate Proper(c: Coins) {
    c.vout != [] && Trimmed(c.vout) && c.height != 0
  }

  predicate ProperOrCleared(c: Coins) {
    c == CLEARED || Proper(c)
  }

  /** An entry with nothing left reads like one that was never there. */
  function Stored(c: Coins): Coins {
    if Cleanup(c.vout) == [] then CLEARED else c.(vout := Cleanup(c.vout))
  }

  lemma TrimmedStays(vout: seq<TxOut>)
    requires vout == [] || !vout[|vout| - 1].IsNull()
    ensures Cleanup(vout) == vout
  {
  }

  /** Outputs as the coin set keeps them. */
  predicate Trimmed(vout: seq<TxOut>) {
    && (vout != [] ==> !vout[|vout| - 1].IsNull())
    && forall i :: 0 <= i < |vout| && vout[i].IsNull() ==> vout[i] == NULL_OUT
  }

  /** Taking an output out, trimming, widening and putting it back changes nothing. */
  lemma HoleRefilled(vout: seq<TxOut>, n: nat)
    requires Trimmed(vout) && n < |vout| && !vout[n].IsNull()
    ensures var rest := Cleanup(vout[n := NULL_OUT]);
            && Trimmed(rest)
            && (n < |rest| ==> rest[n].IsNull())
            && Widen(rest, n + 1)[n := vout[n]] == vout
  {
    var holed := vout[n := NULL_OUT];
    var k := TrimmedLength(holed);
    if k <= n {
      assert n == |vout| - 1;
      assert forall i :: k <= i < n ==> vout[i] == holed[i];
    } else {
      assert k == |vout|;
    }
  }

  /** Undoing a spend gives the coins back exactly, whether or not it was the last one. */
  lemma RestoreUndoesSpend(c: Coins, n: nat)
    requires Proper(c) && c.IsAvailable(n)
    ensures var (c', undo) := Spend(c, n).value;
            && Restore(Stored(c'), n, undo) == (c, true)
            && ProperOrCleared(Stored(c'))
            && (undo.height != 0 <==> Stored(c') == CLEARED)
            && undo.txout == c.vout[n]
  {
    var (c', undo) := Spend(c, n).value;
    HoleRefilled(c.vout, n);
    TrimmedStays(c'.vout);
    assert c'.vout != [] ==> Stored(c') == c' && c'.IsAvailable(|c'.vout| - 1);
  }

  // ----- the coin set

  function Get(v: View, h: Hash): Coins {
    if h in v then v[h] else CLEARED
  }

  /** What is left of an entry when its CCoinsModifier goes out of scope. */
  function Put(v: View, h: Hash, c: Coins): View {
    if Stored(c) == CLEARED then v - {h} else v[h := Stored(c)]
  }

  ghost predicate ProperView(v: View) {
    forall h :: h in v ==> Proper(v[h])
  }

  function SpendOne(v: View, o: OutPoint): Option<(View, Undo)> {
    match Spend(Get(v, o.hash), o.n)
    case None => None
    case Some((c, undo)) => Some((Put(v, o.hash, c), undo))
  }

  function RestoreOne(v: View, o: OutPoint, undo: Undo): (View, bool) {
    var (c, clean) := Restore(Get(v, o.hash), o.n, undo);
    (Put(v, o.hash, c), clean)
  }

  /** The inputs of a transaction are spent in order. */
  function SpendInputs(v: View, vin: seq<OutPoint>): (r: Option<(View, seq<Undo>)>)
    ensures r.Some? ==> |r.value.1| == |vin|
  {
    if vin == [] then Some((v, []))
    else
      match SpendInputs(v, vin[..|vin| - 1])
      case None => None
      case Some((v1, undos)) =>
        match SpendOne(v1, vin[|vin| - 1])
        case None => None
        case Some((v2, undo)) => Some((v2, undos + [undo]))
  }

  /** They are restored in reverse order. */
  function RestoreInputs(v: View, vin: seq<OutPoint>, undos: seq<Undo>): (View, bool)
    requires |undos| == |vin|
    decreases |vin|
  {
    if vin == [] then (v, true)
    else
      var last := |vin| - 1;
      var (v1, clean1) := RestoreOne(v, vin[last], undos[last]);
      var (v2, clean2) := RestoreInputs(v1, vin[..last], undos[..last]);
      (v2, clean1 && clean2)
  }

  /** The first half of UpdateCoins. */
  function SpendPhase(v: View, tx: Tx): (r: Option<(View, seq<Undo>)>)
    ensures r.Some? ==> |r.value.1| == if tx.IsCoinBase() then 0 else |tx.vin|
  {
    if tx.IsCoinBase() then Some((v, [])) else SpendInputs(v, tx.vin)
  }

  /** UpdateCoins. None stands for the assertion that fails when an input is not there. */
  function UpdateCoins(v: View, tx: Tx, height: int): (r: Option<(View, seq<Undo>)>)
    ensures r.Some? ==> |r.value.1| == if tx.IsCoinBase() then 0 else |tx.vin|
  {
    match SpendPhase(v, tx)
    case None => None
    case Some((v1, undos)) => Some((Put(v1, tx.hash, FromTx(tx, height)), undos))
  }

  /** CCoins::operator==. */
  predicate SameCoins(a: Coins, b: Coins) {
    (a.IsPruned() && b.IsPruned()) || a == b
  }

  /** The body of the loop in DisconnectBlock. `first` is the coinbase position. */
  function DisconnectTx(v: View, tx: Tx, undos: seq<Undo>, height: int, first: bool): (View, bool)
    requires !first ==> |undos| == |tx.vin|
  {
    var block := FromTx(tx, height);
    var outs := Get(v, tx.hash);
    var found := outs.(vout := ClearUnspendable(outs.vout),
                       version := if block.version < 0 then block.version else outs.version);
    var clean := SameCoins(found, block);
    var removed := v - {tx.hash};
    if first then (removed, clean)
    else
      var (restored, clean') := RestoreInputs(removed, tx.vin, undos);
      (restored, clean && clean')
  }

  lemma PutBack(v: View, h: Hash, c: Coins)
    requires h in v && Proper(v[h])
    ensures Put(Put(v, h, c), h, v[h]) == v
    ensures Get(Put(v, h, c), h) == Stored(c)
  {
    TrimmedStays(v[h].vout);
    assert Stored(v[h]) == v[h];
  }

  lemma RestoreOneUndoes(v: View, o: OutPoint)
    requires ProperView(v) && SpendOne(v, o).Some?
    ensures var (v', undo) := SpendOne(v, o).value;
            && RestoreOne(v', o, undo) == (v, true)
            && ProperView(v')
            && (undo.height != 0 <==> o.hash !in v')
            && o.hash in v
  {
    var c := Get(v, o.hash);
    RestoreUndoesSpend(c, o.n);
    PutBack(v, o.hash, Spend(c, o.n).value.0);
  }

  lemma {:induction false} RestoreInputsUndoes(v: View, vin: seq<OutPoint>)
    requires ProperView(v) && SpendInputs(v, vin).Some?
    ensures var (v', undos) := SpendInputs(v, vin).value;
            RestoreInputs(v', vin, undos) == (v, true) && ProperView(v')
  {
    if vin != [] {
      var last := |vin| - 1;
      RestoreInputsUndoes(v, vin[..last]);
      var (v1, undos1) := SpendInputs(v, vin[..last]).value;
      RestoreOneUndoes(v1, vin[last]);
      var (v', undos) := SpendInputs(v, vin).value;
      assert undos[..last] == undos1;
    }
  }

  /** Each input is there and no input comes twice: then UpdateCoins' assertion holds. */
  predicate HaveInputs(v: View, vin: seq<OutPoint>) {
    forall i :: 0 <= i < |vin| ==> Get(v, vin[i].hash).IsAvailable(vin[i].n)
  }

  lemma SpendOneElsewhere(v: View, o: OutPoint, p: OutPoint)
    requires ProperView(v) && SpendOne(v, o).Some? && p != o
    ensures var v' := SpendOne(v, o).value.0;
            && Get(v', p.hash).IsAvailable(p.n) == Get(v, p.hash).IsAvailable(p.n)
            && (Get(v, p.hash).IsAvailable(p.n) ==>
                  Get(v', p.hash).vout[p.n] == Get(v, p.hash).vout[p.n])
  {
    hide Spend, Stored, ProperView;
    if p.hash == o.hash {
      SpendElsewhere(Get(v, o.hash), o.n, p.n);
    }
  }

  /** The same on one transaction's coins. */
  lemma SpendElsewhere(c: Coins, n: nat, k: nat)
    requires Spend(c, n).Some? && k != n
    ensures var c' := Stored(Spend(c, n).value.0);
            && c'.IsAvailable(k) == c.IsAvailable(k)
            && (c.IsAvailable(k) ==> c'.vout[k] == c.vout[k])
  {
    var holed := c.vout[n := NULL_OUT];
    var kept := Cleanup(holed);
    TrimmedStays(kept);
    assert k < |holed| ==> holed[k] == c.vout[k];
    assert |kept| <= k < |holed| ==> holed[k].IsNull();
    assert k < |kept| ==> kept[k] == holed[k];
  }

  lemma {:induction false} SpendInputsElsewhere(v: View, vin: seq<OutPoint>, p: OutPoint)
    requires ProperView(v) && SpendInputs(v, vin).Some? && p !in vin
    ensures var v' := SpendInputs(v, vin).value.0;
            && Get(v', p.hash).IsAvailable(p.n) == Get(v, p.hash).IsAvailable(p.n)
            && (Get(v, p.hash).IsAvailable(p.n) ==>
                  Get(v', p.hash).vout[p.n] == Get(v, p.hash).vout[p.n])
  {
    if vin != [] {
      var last := |vin| - 1;
      SpendInputsElsewhere(v, vin[..last], p);
      RestoreInputsUndoes(v, vin[..last]);
      SpendOneElsewhere(SpendInputs(v, vin[..last]).value.0, vin[last], p);
    }
  }

  /** The assertion in UpdateCoins cannot fail after HaveInputs and the duplicate check. */
  lemma {:induction false} InputsCanBeSpent(v: View, vin: seq<OutPoint>)
    requires ProperView(v) && HaveInputs(v, vin) && Distinct(vin)
    ensures SpendInputs(v, vin).Some?
    ensures forall i :: 0 <= i < |vin| ==>
              SpendInputs(v, vin).value.1[i].txout == Get(v, vin[i].hash).vout[vin[i].n]
  {
    if vin != [] {
      var last := |vin| - 1;
      InputsCanBeSpent(v, vin[..last]);
      SpendInputsElsewhere(v, vin[..last], vin[last]);
    }
  }
}
