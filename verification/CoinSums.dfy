/** Sums over finite maps, independent of the order of the keys. */
module MapSums {

  ghost function Sum<K(!new), V(!new)>(w: (K, V) -> int, m: map<K, V>): int
    decreases |m|
  {
    if m == map[] then 0
    else
      var k :| k in m;
      assert |m - {k}| < |m| by { Smaller(m, k); }
      w(k, m[k]) + Sum(w, m - {k})
  }

  lemma Smaller<K, V>(m: map<K, V>, k: K)
    requires k in m
    ensures |m - {k}| == |m| - 1
  {
    assert (m - {k}).Keys == m.Keys - {k};
    assert |m| == |m.Keys| && |m - {k}| == |(m - {k}).Keys|;
  }

  lemma {:induction false} SumRemove<K(!new), V(!new)>(w: (K, V) -> int, m: map<K, V>, k: K)
    requires k in m
    ensures Sum(w, m) == w(k, m[k]) + Sum(w, m - {k})
    decreases |m|
  {
    var first :| first in m && Sum(w, m) == w(first, m[first]) + Sum(w, m - {first});
    if first != k {
      Smaller(m, first);
      Smaller(m, k);
      SumRemove(w, m - {first}, k);
      SumRemove(w, m - {k}, first);
      assert m - {first} - {k} == m - {k} - {first};
    }
  }

  lemma SumWrite<K(!new), V(!new)>(w: (K, V) -> int, m: map<K, V>, k: K, v: V)
    ensures Sum(w, m[k := v]) == Sum(w, m) + w(k, v) - if k in m then w(k, m[k]) else 0
  {
    SumRemove(w, m[k := v], k);
    if k in m {
      SumRemove(w, m, k);
      assert m[k := v] - {k} == m - {k};
    } else {
      assert m[k := v] - {k} == m;
    }
  }
}

/** How any measure of outputs adds up over the coin set, and how spending and creating
    coins changes the sum. */
module CoinSums {
  import opened Transactions
  import opened CoinSet
  import opened MapSums

  function SumOuts(w: TxOut -> int, outs: seq<TxOut>): int {
    if outs == [] then 0 else SumOuts(w, outs[..|outs| - 1]) + w(outs[|outs| - 1])
  }

  function CoinsWeight(w: TxOut -> int): (Hash, Coins) -> int {
    (h: Hash, c: Coins) => SumOuts(w, c.vout)
  }

  ghost function Total(w: TxOut -> int, v: View): int {
    Sum(CoinsWeight(w), v)
  }

  /** Spent outputs do not count. */
  ghost predicate IgnoresNull(w: TxOut -> int) {
    forall o: TxOut :: o.IsNull() ==> w(o) == 0
  }

  function Spendable(w: TxOut -> int): TxOut -> int {
    (o: TxOut) => if o.script.unspendable then 0 else w(o)
  }

  function Unspendable(w: TxOut -> int): TxOut -> int {
    (o: TxOut) => if o.script.unspendable then w(o) else 0
  }

  lemma {:induction false} SumOutsSplit(w: TxOut -> int, outs: seq<TxOut>)
    ensures SumOuts(w, outs) == SumOuts(Spendable(w), outs) + SumOuts(Unspendable(w), outs)
  {
    if outs != [] {
      SumOutsSplit(w, outs[..|outs| - 1]);
    }
  }

  /** A sum of numbers that are not negative is zero exactly when all of them are. */
  lemma {:induction false} SumOutsZero(w: TxOut -> int, outs: seq<TxOut>)
    requires forall i :: 0 <= i < |outs| ==> w(outs[i]) >= 0
    ensures SumOuts(w, outs) >= 0
    ensures SumOuts(w, outs) == 0 <==> forall i :: 0 <= i < |outs| ==> w(outs[i]) == 0
  {
    if outs != [] {
      SumOutsZero(w, outs[..|outs| - 1]);
    }
  }

  function SumUndos(w: TxOut -> int, undos: seq<Undo>): int {
    if undos == [] then 0 else SumUndos(w, undos[..|undos| - 1]) + w(undos[|undos| - 1].txout)
  }

  lemma {:induction false} SumOutsUpdate(w: TxOut -> int, outs: seq<TxOut>, n: nat, o: TxOut)
    requires n < |outs|
    ensures SumOuts(w, outs[n := o]) == SumOuts(w, outs) - w(outs[n]) + w(o)
  {
    var last := |outs| - 1;
    if n == last {
      assert outs[n := o][..last] == outs[..last];
    } else {
      SumOutsUpdate(w, outs[..last], n, o);
      assert outs[n := o][..last] == outs[..last][n := o];
    }
  }

  lemma {:induction false} SumOutsCleanup(w: TxOut -> int, outs: seq<TxOut>)
    requires IgnoresNull(w)
    ensures SumOuts(w, Cleanup(outs)) == SumOuts(w, outs)
  {
    if outs != [] && outs[|outs| - 1].IsNull() {
      SumOutsCleanup(w, outs[..|outs| - 1]);
      assert Cleanup(outs) == Cleanup(outs[..|outs| - 1]);
    } else {
      assert Cleanup(outs) == outs;
    }
  }

  lemma {:induction false} SumOutsPointwise(w: TxOut -> int, u: TxOut -> int, a: seq<TxOut>, b: seq<TxOut>)
    requires |a| == |b| && forall i :: 0 <= i < |a| ==> w(a[i]) == u(b[i])
    ensures SumOuts(w, a) == SumOuts(u, b)
  {
    if a != [] {
      SumOutsPointwise(w, u, a[..|a| - 1], b[..|b| - 1]);
    }
  }

  lemma SumOutsCreated(w: TxOut -> int, tx: Tx, height: int)
    requires IgnoresNull(w)
    ensures SumOuts(w, FromTx(tx, height).vout) == SumOuts(Spendable(w), tx.vout)
  {
    var kept := WithoutUnspendable(tx.vout);
    assert NULL_OUT.IsNull();
    SumOutsPointwise(w, Spendable(w), kept, tx.vout);
    SumOutsCleanup(w, kept);
  }

  lemma TotalPut(w: TxOut -> int, v: View, h: Hash, c: Coins)
    requires IgnoresNull(w)
    ensures Total(w, Put(v, h, c)) == Total(w, v) + SumOuts(w, c.vout) - SumOuts(w, Get(v, h).vout)
  {
    SumOutsCleanup(w, c.vout);
    if Stored(c) == CLEARED {
      assert Cleanup(c.vout) == [];
      if h in v { SumRemove(CoinsWeight(w), v, h); } else { assert v - {h} == v; }
    } else {
      SumWrite(CoinsWeight(w), v, h, Stored(c));
    }
  }

  lemma SpendOneTotal(w: TxOut -> int, v: View, o: OutPoint)
    requires IgnoresNull(w) && SpendOne(v, o).Some?
    ensures var (v', undo) := SpendOne(v, o).value;
            Total(w, v') == Total(w, v) - w(undo.txout)
  {
    var c := Get(v, o.hash);
    var c' := Spend(c, o.n).value.0;
    TotalPut(w, v, o.hash, c');
    SumOutsUpdate(w, c.vout, o.n, NULL_OUT);
    SumOutsCleanup(w, c.vout[o.n := NULL_OUT]);
    assert NULL_OUT.IsNull();
  }

  lemma {:induction false} SpendInputsTotal(w: TxOut -> int, v: View, vin: seq<OutPoint>)
    requires IgnoresNull(w) && SpendInputs(v, vin).Some?
    ensures var (v', undos) := SpendInputs(v, vin).value;
            Total(w, v') == Total(w, v) - SumUndos(w, undos)
  {
    if vin != [] {
      var last := |vin| - 1;
      SpendInputsTotal(w, v, vin[..last]);
      var (v1, undos1) := SpendInputs(v, vin[..last]).value;
      SpendOneTotal(w, v1, vin[last]);
      var undos := SpendInputs(v, vin).value.1;
      assert undos[..last] == undos1;
    }
  }

  /** What connecting one transaction does to any sum over the coin set. */
  lemma UpdateCoinsTotal(w: TxOut -> int, v: View, tx: Tx, height: int)
    requires IgnoresNull(w) && UpdateCoins(v, tx, height).Some?
    ensures var (v', undos) := UpdateCoins(v, tx, height).value;
            var v1 := SpendPhase(v, tx).value.0;
            Total(w, v') == Total(w, v) - SumUndos(w, undos) + SumOuts(Spendable(w), tx.vout)
                            - SumOuts(w, Get(v1, tx.hash).vout)
  {
    if !tx.IsCoinBase() {
      SpendInputsTotal(w, v, tx.vin);
    }
    TotalPut(w, SpendPhase(v, tx).value.0, tx.hash, FromTx(tx, height));
    SumOutsCreated(w, tx, height);
  }
}
