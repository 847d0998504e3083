/** The ePoW block window (src/chain/epow.cpp): who has mined a block is shut out for some
    blocks, but never everyone. */
module Epow {
  import opened Common

  type Miner = nat

  /** The miner of a block. None when the block cannot be read or its address is too short. */
  datatype Mined = By(miner: Miner) | Unknown

  /** The active chain from the tip back, with the genesis block last. */
  type Blocks = seq<Mined>

  const DEPTH := 480
  const MAX_DEPTH := 700
  const MAX_HEIGHT := 0x1A_BBC0
  const V2_DEPTH := 120

  /** How many of the last `depth` blocks are looked at: never the genesis block. */
  function Reach(blocks: Blocks, depth: int): (n: nat)
    ensures depth >= 0 ==> n <= depth
  {
    if depth < 0 || blocks == [] then 0
    else if depth < |blocks| - 1 then depth else |blocks| - 1
  }

  /** The known miners of the first `n` blocks. */
  function Miners(blocks: Blocks, n: nat): set<Miner>
    requires n <= |blocks|
  {
    set i | 0 <= i < n && blocks[i].By? :: blocks[i].miner
  }

  function Recent(blocks: Blocks, depth: int): set<Miner> {
    Miners(blocks, Reach(blocks, depth))
  }

  lemma MinersGrow(blocks: Blocks, n: nat)
    requires n < |blocks|
    ensures Miners(blocks, n + 1) == Miners(blocks, n) + if blocks[n].By? then {blocks[n].miner} else {}
  {
  }

  lemma {:induction false} AtMostOneEach(blocks: Blocks, n: nat)
    requires n <= |blocks|
    ensures |Miners(blocks, n)| <= n
  {
    if n > 0 {
      AtMostOneEach(blocks, n - 1);
      MinersGrow(blocks, n - 1);
    }
  }

  // ----- the scans

  /** GetNodeFactor: the number of different miners. Without a tip the last value is kept. */
  method GetNodeFactor(blocks: Blocks, depth: int, current: int) returns (nf: int)
    ensures nf == if blocks == [] then current else |Recent(blocks, depth)|
    ensures blocks != [] ==> 0 <= nf && (depth >= 0 ==> nf <= depth)
  {
    if blocks == [] {
      return current;
    }
    hide Lists, Miners;
    var limit := if depth < 1 then 0 else depth;
    var list: map<Miner, int> := map[];
    var i := 0;
    ListsNone(blocks);
    while i < limit && i < |blocks| - 1
      invariant 0 <= i <= Reach(blocks, depth)
      invariant Lists(blocks, i, list)
      decreases |blocks| - i
    {
      ListsNext(blocks, i, list, |blocks| - 1 - i);
      if blocks[i].By? && blocks[i].miner !in list {
        list := list[blocks[i].miner := |blocks| - 1 - i];
      }
      i := i + 1;
    }
    AtMostOneEach(blocks, Reach(blocks, depth));
    ListsCount(blocks, i, list);
    return |list|;
  }

  /** The list has the miners of the first `n` blocks. */
  ghost predicate Lists(blocks: Blocks, n: nat, list: map<Miner, int>)
    requires n <= |blocks|
  {
    list.Keys == Miners(blocks, n)
  }

  lemma ListsNone(blocks: Blocks)
    ensures Lists(blocks, 0, map[])
  {
  }

  lemma ListsNext(blocks: Blocks, n: nat, list: map<Miner, int>, height: int)
    requires n < |blocks| && Lists(blocks, n, list)
    ensures Lists(blocks, n + 1,
                  if blocks[n].By? && blocks[n].miner !in list then list[blocks[n].miner := height] else list)
  {
    MinersGrow(blocks, n);
  }

  lemma ListsCount(blocks: Blocks, n: nat, list: map<Miner, int>)
    requires n <= |blocks| && Lists(blocks, n, list)
    ensures |list| == |Miners(blocks, n)|
  {
    assert |list| == |list.Keys|;
  }

  /** GetMiningDepth: how long ago `miner` has mined, as far as the search goes. */
  method GetMiningDepth(blocks: Blocks, miner: Miner) returns (d: int)
    ensures -1 <= d < Reach(blocks, MAX_DEPTH)
    ensures d == -1 ==> miner !in Recent(blocks, MAX_DEPTH)
    ensures d >= 0 ==> blocks[d] == By(miner) && miner !in Miners(blocks, d)
  {
    d := -1;
    var i := 0;
    while i < MAX_DEPTH && i < |blocks| - 1
      invariant 0 <= i <= Reach(blocks, MAX_DEPTH)
      invariant miner !in Miners(blocks, i)
    {
      if blocks[i] == By(miner) {
        return i;
      }
      MinersGrow(blocks, i);
      i := i + 1;
    }
  }

  // ----- the size of the window

  /** GetBlockWindowSize, newly computed. `share` is the integer part of 0.7 times the node
      factor and `scaled` that of the same in proportion to the height. */
  function WindowSize(nf: nat, height: nat, v2: bool, share: int, scaled: int): (wz: int)
    ensures wz < nf
  {
    var raw :=
      if v2 then (if share > 1 then 1 else 0)
      else if height > MAX_HEIGHT then share else scaled;
    if raw >= nf then nf - 1 else raw
  }

  /** The node factor that CalculateWindowSize goes on with. */
  function Factor(nf: nat, depth: nat): (f: nat)
    ensures depth >= 16 ==> f > 0
  {
    if nf < depth / 16 || nf > depth / 2 then depth / 2 else nf
  }

  /** CalculateWindowSize, newly computed, for the last `depth` blocks. `rated` is the integer
      part of 0.7 times depth / factor, and the times are those of the last `depth` blocks and
      of half of them. */
  function WindowSizeV2(nf: nat, depth: nat, interval: int, rated: int, time: int, halfTime: int): (wz: int)
    ensures wz <= 2
    ensures depth >= 48 ==> wz < nf || wz <= 0
  {
    var windowTime := depth * interval;
    if depth == 0 || windowTime == 0 then -1
    else
      var half := depth / 2;
      var factor := Factor(nf, depth);
      var size := rated / 2;
      if factor == half then Min(size, 0)
      else if time > windowTime * 2 then
        if halfTime > windowTime then Min(size, 1) else Min(Max(size, 1), 1)
      else if factor < depth / 8 then Min(Max(size, 1), 2)
      else Min(Max(size, 1), 1)
  }

  function Min(a: int, b: int): int { if a <= b then a else b }

  function Max(a: int, b: int): int { if a >= b then a else b }

  /** What the window depends on besides the miners: the values computed in floating point, the
      times of the last blocks, and when the second version starts. */
  datatype Inputs = Inputs(
    v2Height: nat, interval: int,
    share: int -> int, scaled: (int, int) -> int, rated: int -> int,
    time: Blocks -> int, halfTime: Blocks -> int)

  /** The window that GetBlockWindowSize computes for a chain. */
  function WindowOf(x: Inputs, blocks: Blocks): int
    requires blocks != []
  {
    var nf, height := |Recent(blocks, DEPTH)|, |blocks| - 1;
    WindowSize(nf, height, height >= x.v2Height, x.share(nf), x.scaled(height, nf))
  }

  /** The window that CalculateWindowSize computes for a chain, from its last `depth` blocks. */
  function WindowOfV2(x: Inputs, blocks: Blocks, depth: nat): int
    requires blocks != []
  {
    var nf := |Recent(blocks, depth)|;
    var rated := if Factor(nf, depth) == 0 then 0 else x.rated(depth / Factor(nf, depth));
    WindowSizeV2(nf, depth, x.interval, rated, x.time(blocks), x.halfTime(blocks))
  }

  // ----- which window it is

  /** Seven tenths, rounded down; where they are a whole number, a product that comes out a little
      too small gives one less. */
  ghost predicate SevenTenths(f: int -> int) {
    forall q: nat :: 7 * q / 10 - (if q % 10 == 0 < q then 1 else 0) <= f(q) <= 7 * q / 10
  }

  /** The last 120 blocks took no more than twice their time, or the last 60 no more than that. */
  predicate Normal(x: Inputs, blocks: Blocks) { x.time(blocks) <= 240 * x.interval }
  predicate Recovered(x: Inputs, blocks: Blocks) { x.halfTime(blocks) <= 120 * x.interval }

  /** The window of the second version by the number of different miners, whatever the floating
      point gives: none for fewer than 7 or more than 59 miners, one for 15 to 59, one or two for 7
      to 14; only after a slow time the rate can make it smaller. */
  lemma WindowByMiners(x: Inputs, blocks: Blocks)
    requires blocks != [] && x.interval > 0
    ensures var nf, wz := |Recent(blocks, V2_DEPTH)|, WindowOfV2(x, blocks, V2_DEPTH);
            if nf < 7 || nf >= 60 then wz <= 0
            else if Normal(x, blocks) && nf < 15
            then 1 <= wz <= 2 && (wz == 2 <==> x.rated(120 / nf) >= 4)
            else if Normal(x, blocks) || Recovered(x, blocks) then wz == 1
            else wz <= 1 && (wz == 1 <==> x.rated(120 / nf) >= 2)
  {
    hide Recent;
  }

  /** With seven tenths for the rate: exactly. */
  lemma WindowIsExactly(x: Inputs, blocks: Blocks)
    requires blocks != [] && x.interval > 0 && SevenTenths(x.rated)
    ensures var nf := |Recent(blocks, V2_DEPTH)|;
            WindowOfV2(x, blocks, V2_DEPTH) ==
            if nf < 7 || nf >= 60 then 0
            else if Normal(x, blocks) && nf < 15 then 2
            else if Normal(x, blocks) || Recovered(x, blocks) || nf <= 40 then 1
            else 0
  {
    hide Recent;
    var nf := |Recent(blocks, V2_DEPTH)|;
    if 7 <= nf < 60 {
      PartsOf120(nf);
      WindowByMiners(x, blocks);
    }
  }

  lemma PartsOf120(nf: nat)
    requires 7 <= nf < 60
    ensures 2 <= 120 / nf <= 17 && (nf < 15 ==> 120 / nf >= 8) && (nf <= 40 <==> 120 / nf >= 3)
  {
    var q := 120 / nf;
    assert q * nf <= 120 < q * nf + nf;
  }

  /** The first version shuts out seven tenths of the miners above its largest height, less than
      all of them below it, and one block's miner, if there are three, once the second starts. */
  lemma FirstWindowIsExactly(x: Inputs, blocks: Blocks)
    requires blocks != [] && SevenTenths(x.share)
    ensures var nf, height, wz := |Recent(blocks, DEPTH)|, |blocks| - 1, WindowOf(x, blocks);
            && (nf == 0 && (height >= x.v2Height || height > MAX_HEIGHT) ==> wz == -1)
            && (nf > 0 && height >= x.v2Height ==> wz == if nf >= 3 then 1 else 0)
            && (nf > 0 && x.v2Height > height > MAX_HEIGHT ==>
                  7 * nf <= 10 * (wz + 1) && 10 * wz <= 7 * nf)
            && (height < x.v2Height && height <= MAX_HEIGHT ==>
                  wz <= nf - 1 && wz <= x.scaled(height, nf) && wz in {nf - 1, x.scaled(height, nf)})
  {
    hide Recent;
    var nf := |Recent(blocks, DEPTH)|;
    assert 7 * nf / 10 - (if nf % 10 == 0 < nf then 1 else 0) <= x.share(nf) <= 7 * nf / 10;
  }

  /** Both functions store their result in one place and return what is stored there, so that
      either may be in use. */
  predicate IsWindow(x: Inputs, blocks: Blocks, wz: int)
    requires blocks != []
  {
    wz == WindowOf(x, blocks) || wz == WindowOfV2(x, blocks, V2_DEPTH)
  }

  /** Either is below the number of different miners of the last 480 blocks, or shuts out no one. */
  lemma WindowIsFair(x: Inputs, blocks: Blocks, wz: int)
    requires blocks != [] && IsWindow(x, blocks, wz)
    ensures wz < |Recent(blocks, DEPTH)| || wz <= 0
    ensures wz < DEPTH
  {
    hide WindowSize, WindowSizeV2, Miners;
    AtMostOneEach(blocks, Reach(blocks, DEPTH));
    MinersWithin(blocks, Reach(blocks, V2_DEPTH), Reach(blocks, DEPTH));
    SubsetIsSmaller(Recent(blocks, V2_DEPTH), Recent(blocks, DEPTH));
  }

  /** The chain is as high as CalculateWindowSize asserts, and `depth` blocks go back from the tip. */
  predicate IsTall(x: Inputs, blocks: Blocks, depth: nat) {
    |blocks| - 1 >= x.interval / 4 && |blocks| - 1 >= depth
  }

  /** The stored values. */
  class Window {
    var touched: bool
    var lastSize: int
    var nodeFactor: int
    var height: int

    constructor ()
      ensures Valid() && touched && lastSize == 0 && nodeFactor == 0 && height == 0
    {
      touched, lastSize, nodeFactor, height := true, 0, 0, 0;
    }

    /** Every stored window is shorter than the search for a miner's last block. */
    predicate Valid()
      reads this
    {
      lastSize < DEPTH
    }

    /** What is stored, if it is still in use, was computed for this chain. */
    predicate IsFor(x: Inputs, blocks: Blocks)
      requires blocks != []
      reads this
    {
      !touched ==> IsWindow(x, blocks, lastSize)
    }

    /** GetBlockWindowSize. */
    method GetBlockWindowSize(x: Inputs, blocks: Blocks) returns (wz: int)
      modifies this
      ensures old(Valid()) ==> Valid()
      ensures !old(touched) || blocks == [] ==>
                wz == old(lastSize) && touched == old(touched) && lastSize == old(lastSize)
      ensures old(touched) && blocks != [] ==>
                && wz == WindowOf(x, blocks) && !touched && lastSize == wz
                && nodeFactor == |Recent(blocks, DEPTH)| && height == |blocks| - 1
    {
      hide Recent;
      if !touched {
        return lastSize;
      }
      var nf := GetNodeFactor(blocks, DEPTH, nodeFactor);
      if blocks == [] {
        return lastSize;
      }
      nodeFactor := nf;
      height := |blocks| - 1;
      if height >= x.v2Height {
        wz := x.share(nf);
        wz := if wz > 1 then 1 else 0;
      } else if height > MAX_HEIGHT {
        wz := x.share(nf);
      } else {
        wz := x.scaled(height, nf);
      }
      if wz >= nf {
        wz := nf - 1;
      }
      lastSize := wz;
      touched := false;
    }

    /** CalculateWindowSize. Before it computes anew it asserts a least height, and it needs a
        block that is `depth` below the tip. None stands for its division by zero, when a depth
        below 16 finds no miner or a depth of 1 is asked for; the depth that is used is 120. */
    method CalculateWindowSize(x: Inputs, blocks: Blocks, depth: nat) returns (r: Option<int>)
      requires blocks != [] && (touched ==> IsTall(x, blocks, depth))
      modifies this
      ensures old(Valid()) ==> Valid()
      ensures !old(touched) ==> r == Some(old(lastSize)) && touched == old(touched) && lastSize == old(lastSize)
      ensures old(touched) ==> nodeFactor == |Recent(blocks, depth)|
      ensures old(touched) && depth * x.interval == 0 ==> r == Some(-1) && touched && lastSize == old(lastSize)
      ensures old(touched) && depth * x.interval != 0 ==>
                if Factor(|Recent(blocks, depth)|, depth) == 0 then r == None
                else r == Some(WindowOfV2(x, blocks, depth)) && !touched && lastSize == r.value
    {
      hide Recent;
      if !touched {
        return Some(lastSize);
      }
      var nf := GetNodeFactor(blocks, depth, nodeFactor);
      nodeFactor := nf;
      var windowTime := depth * x.interval;
      if depth == 0 || windowTime == 0 {
        return Some(-1);
      }
      if nf < depth / 16 || nf > depth / 2 {
        nf := depth / 2;
      }
      if nf == 0 {
        return None;
      }
      var wz := x.rated(depth / nf) / 2;
      if x.time(blocks) > windowTime * 2 {
        if x.halfTime(blocks) > windowTime {
          wz := if nf == depth / 2 then Min(wz, 0) else Min(wz, 1);
        } else {
          wz := if nf == depth / 2 then Min(wz, 0) else Min(Max(wz, 1), 1);
        }
      } else if nf < depth / 8 {
        wz := if nf == depth / 2 then Min(wz, 0) else Min(Max(wz, 1), 2);
      } else {
        wz := if nf == depth / 2 then Min(wz, 0) else Min(Max(wz, 1), 1);
      }
      lastSize := wz;
      touched := false;
      return Some(wz);
    }

    /** CheckBlockWindow: the verdict is that the miner has mined none of the blocks in the window
        in use. That the search ends after 700 blocks does not matter, since no window is so long.
        The window is one of this chain unless an older one was stored. */
    method CheckBlockWindow(x: Inputs, blocks: Blocks, miner: Miner) returns (ok: bool, ghost window: int)
      requires blocks != [] && Valid()
      requires touched && |blocks| - 1 >= x.v2Height ==> IsTall(x, blocks, V2_DEPTH)
      modifies this
      ensures Valid()
      ensures old(IsFor(x, blocks)) ==> IsFor(x, blocks) && IsWindow(x, blocks, window)
      ensures !old(touched) ==> window == old(lastSize)
      ensures ok <==> miner !in Recent(blocks, window)
    {
      hide WindowOf, WindowOfV2, Miners;
      var wz;
      var depth := GetMiningDepth(blocks, miner);
      if |blocks| - 1 >= x.v2Height {
        var r := CalculateWindowSize(x, blocks, V2_DEPTH);
        NoInterval(x, blocks);
        wz := r.value;
      } else {
        wz := GetBlockWindowSize(x, blocks);
      }
      window := wz;
      if IsWindow(x, blocks, wz) {
        WindowIsFair(x, blocks, wz);
      }
      if depth < 0 {
        MinersWithin(blocks, Reach(blocks, wz), Reach(blocks, MAX_DEPTH));
        return true, window;
      }
      if wz > depth {
        MinerAt(blocks, Reach(blocks, wz), depth);
        return false, window;
      }
      MinersWithin(blocks, Reach(blocks, wz), depth);
      return true, window;
    }
  }

  lemma NoInterval(x: Inputs, blocks: Blocks)
    requires blocks != []
    ensures V2_DEPTH * x.interval == 0 ==> WindowOfV2(x, blocks, V2_DEPTH) == -1
  {
  }

  // ----- who may mine

  lemma MinersWithin(blocks: Blocks, n: nat, m: nat)
    requires n <= m <= |blocks|
    ensures Miners(blocks, n) <= Miners(blocks, m)
  {
  }

  lemma MinerAt(blocks: Blocks, n: nat, i: nat)
    requires i < n <= |blocks| && blocks[i].By?
    ensures blocks[i].miner in Miners(blocks, n)
  {
  }

  /** A window below the number of different miners leaves one of them out. */
  lemma SomeoneMayMine(blocks: Blocks, depth: int, wz: int)
    requires wz < |Recent(blocks, depth)| && Recent(blocks, depth) != {}
    ensures exists m :: m in Recent(blocks, depth) && m !in Recent(blocks, wz)
  {
    AtMostOneEach(blocks, Reach(blocks, wz));
    if Recent(blocks, depth) <= Recent(blocks, wz) {
      SubsetIsSmaller(Recent(blocks, depth), Recent(blocks, wz));
      assert false;
    }
  }

  lemma SubsetIsSmaller(a: set<Miner>, b: set<Miner>)
    requires a <= b
    ensures |a| <= |b|
  {
    assert b == a + (b - a);
  }

  /** Any window, of this chain or not, leaves a recent miner free if and only if it has fewer
      different miners in it than there are. */
  lemma SomeoneMayMineIff(blocks: Blocks, depth: nat, wz: int)
    requires wz <= depth
    ensures (exists m :: m in Recent(blocks, depth) && m !in Recent(blocks, wz))
            <==> |Recent(blocks, wz)| < |Recent(blocks, depth)|
  {
    hide Miners;
    MinersWithin(blocks, Reach(blocks, wz), Reach(blocks, depth));
    SameSizeIsSame(Recent(blocks, wz), Recent(blocks, depth));
  }

  lemma SameSizeIsSame(a: set<Miner>, b: set<Miner>)
    requires a <= b
    ensures |a| <= |b| && (|a| == |b| <==> a == b)
    ensures a != b <==> exists m :: m in b && m !in a
  {
    assert b == a + (b - a);
    if a != b {
      assert b - a != {};
    }
  }

  // ----- windows that outlive their chain

  /** A chain that seven miners have taken turns on, and one that is all by one of them. */
  const BYSEVEN: Blocks := seq(120, i => By(i % 7)) + [Unknown]
  const BYONE: Blocks := seq(121, i => By(0)) + [Unknown]

  lemma SevenMiners()
    ensures |Recent(BYSEVEN, V2_DEPTH)| == 7
  {
    var seven := {0, 1, 2, 3, 4, 5, 6};
    forall m | m in seven ensures m in Recent(BYSEVEN, V2_DEPTH) {
      assert BYSEVEN[m] == By(m);
    }
    assert Recent(BYSEVEN, V2_DEPTH) == seven;
  }

  lemma OneMiner(n: nat)
    requires n > 0
    ensures Recent(BYONE, n) == {0}
  {
    assert BYONE[0] == By(0);
  }

  /** What is stored for one chain and used on another can shut out everyone: a window of two,
      computed for seven miners, refuses each recent miner of a chain by one. */
  method StaleWindowShutsOutAll(x: Inputs, miner: Miner) returns (ok: bool)
    requires 0 < x.interval && IsTall(x, BYSEVEN, V2_DEPTH)
    requires x.rated(17) == 11 && x.time(BYSEVEN) <= 240 * x.interval
    ensures miner in Recent(BYONE, DEPTH) ==> !ok
  {
    hide Recent, IsWindow;
    SevenMiners();
    OneMiner(DEPTH);
    OneMiner(2);
    var w := new Window();
    var r := w.CalculateWindowSize(x, BYSEVEN, V2_DEPTH);
    assert r == Some(2);
    ghost var window;
    ok, window := w.CheckBlockWindow(x, BYONE, miner);
  }

  /** With one more block than when the window was computed, at most one miner has dropped out. */
  lemma OneDropsOut(blocks: Blocks)
    requires |blocks| >= 2
    ensures |Recent(blocks[1..], DEPTH)| <= |Recent(blocks, DEPTH)| + 1
  {
    var before, now := Recent(blocks[1..], DEPTH), Recent(blocks, DEPTH);
    var last := if |blocks| > DEPTH && blocks[DEPTH].By? then {blocks[DEPTH].miner} else {};
    forall m | m in before ensures m in now + last {
      var i :| 0 <= i < Reach(blocks[1..], DEPTH) && blocks[1..][i] == By(m);
      assert blocks[i + 1] == By(m);
    }
    SubsetIsSmaller(before, now + last);
    assert now + last == now + (last - now);
    assert |last - now| <= 1 by { SubsetIsSmaller(last - now, last); }
  }

  /** A window that was computed before the last block arrived leaves a recent miner free, unless
      its blocks are all by different miners and there are no others. */
  lemma LateWindowIff(x: Inputs, blocks: Blocks, wz: int)
    requires |blocks| >= 2 && IsWindow(x, blocks[1..], wz) && Recent(blocks, DEPTH) != {}
    ensures (exists m :: m in Recent(blocks, DEPTH) && m !in Recent(blocks, wz))
            <==> !(|Recent(blocks, wz)| == wz == |Recent(blocks, DEPTH)|)
  {
    hide Miners, IsWindow;
    WindowIsFair(x, blocks[1..], wz);
    OneDropsOut(blocks);
    SomeoneMayMineIff(blocks, DEPTH, wz);
    AtMostOneEach(blocks, Reach(blocks, wz));
    MinersWithin(blocks, Reach(blocks, wz), Reach(blocks, DEPTH));
    SubsetIsSmaller(Recent(blocks, wz), Recent(blocks, DEPTH));
    NonEmptyCounts(Recent(blocks, DEPTH));
  }

  lemma NonEmptyCounts(s: set<Miner>)
    requires s != {}
    ensures |s| > 0
  {
  }

  // ----- whole chains

  /** Which of the two windows is in use on a chain may depend on anything. */
  ghost predicate UsesWindows(x: Inputs, window: Blocks -> int) {
    forall blocks: Blocks :: blocks != [] ==> IsWindow(x, blocks, window(blocks))
  }

  /** The newest `n` blocks have each passed the check on the chain before them. */
  predicate Mineable(window: Blocks -> int, blocks: Blocks, n: nat)
    requires n < |blocks|
  {
    n == 0 ||
    (&& blocks[0].By? && blocks[0].miner !in Recent(blocks[1..], window(blocks[1..]))
     && Mineable(window, blocks[1..], n - 1))
  }

  /** The miners of the newest `n` blocks are among some others. */
  predicate MinedBy(blocks: Blocks, n: nat, miners: set<Miner>)
    requires n <= |blocks|
  {
    forall i :: 0 <= i < n ==> blocks[i].By? && blocks[i].miner in miners
  }

  /** Every chain with a known miner can be continued for ever, by miners it already has,
      whichever window is in use each time. */
  lemma {:induction false} NeverStuck(x: Inputs, window: Blocks -> int, blocks: Blocks, n: nat) returns (longer: Blocks)
    requires UsesWindows(x, window) && blocks != [] && Recent(blocks, DEPTH) != {}
    ensures |longer| == |blocks| + n && longer[n..] == blocks
    ensures Mineable(window, longer, n) && MinedBy(longer, n, Miners(blocks, |blocks| - 1))
  {
    hide UsesWindows, Miners;
    if n == 0 {
      longer := blocks;
    } else {
      var before := NeverStuck(x, window, blocks, n - 1);
      var m := NextMiner(x, window, blocks, before, n - 1);
      longer := [By(m)] + before;
      assert longer[1..] == before;
    }
  }

  lemma NextMiner(x: Inputs, window: Blocks -> int, blocks: Blocks, before: Blocks, n: nat) returns (m: Miner)
    requires UsesWindows(x, window) && blocks != [] && Recent(blocks, DEPTH) != {}
    requires |before| == |blocks| + n && before[n..] == blocks
    requires MinedBy(before, n, Miners(blocks, |blocks| - 1))
    ensures m !in Recent(before, window(before)) && m in Miners(blocks, |blocks| - 1)
  {
    hide IsWindow;
    var wz := window(before);
    WindowIsFair(x, before, wz);
    if wz > 0 {
      SomeoneMayMine(before, DEPTH, wz);
      m :| m in Recent(before, DEPTH) && m !in Recent(before, wz);
      KnownBefore(blocks, before, n, m);
    } else {
      m :| m in Recent(blocks, DEPTH);
      assert Recent(before, wz) == {};
    }
  }

  lemma KnownBefore(blocks: Blocks, before: Blocks, n: nat, m: Miner)
    requires blocks != [] && |before| == |blocks| + n && before[n..] == blocks && m in Recent(before, DEPTH)
    requires MinedBy(before, n, Miners(blocks, |blocks| - 1))
    ensures m in Miners(blocks, |blocks| - 1)
  {
    var i :| 0 <= i < Reach(before, DEPTH) && before[i] == By(m);
    if i >= n {
      assert before[i] == blocks[i - n];
    }
  }

  /** On a chain whose blocks all passed the check, a miner's block is followed by none of his
      own within the window that applied. */
  lemma {:induction false} MinersPause(window: Blocks -> int, blocks: Blocks, n: nat, i: nat, j: nat)
    requires n < |blocks| && Mineable(window, blocks, n) && i < n && i < j < |blocks| - 1
    requires j - i - 1 < window(blocks[i + 1..])
    ensures blocks[i].By? && blocks[i] != blocks[j]
    decreases n
  {
    if i == 0 {
      assert blocks[1..][j - 1] == blocks[j];
    } else {
      assert blocks[1..][i..] == blocks[i + 1..];
      MinersPause(window, blocks[1..], n - 1, i - 1, j - 1);
    }
  }

  /** The miner of the tip is refused when 7 to 59 miners have made the last 120 blocks in normal
      time. */
  lemma LastMinerIsRefused(x: Inputs, blocks: Blocks)
    requires |blocks| >= 2 && blocks[0].By? && x.interval > 0 && Normal(x, blocks)
    requires 7 <= |Recent(blocks, V2_DEPTH)| < 60
    ensures blocks[0].miner in Recent(blocks, WindowOfV2(x, blocks, V2_DEPTH))
  {
    hide WindowOfV2, Miners;
    WindowByMiners(x, blocks);
    MinerAt(blocks, Reach(blocks, WindowOfV2(x, blocks, V2_DEPTH)), 0);
  }

  /** So on a chain of blocks that passed, no such miner has two blocks in a row, and with fewer
      than 15 miners not two of three. */
  lemma MinersTakeTurns(x: Inputs, window: Blocks -> int, blocks: Blocks, n: nat, i: nat, j: nat)
    requires n < |blocks| && Mineable(window, blocks, n) && i < n && i < j < |blocks| - 1
    requires var before := blocks[i + 1..];
             && window(before) == WindowOfV2(x, before, V2_DEPTH)
             && x.interval > 0 && Normal(x, before) && 7 <= |Recent(before, V2_DEPTH)| < 60
             && (j == i + 1 || (j == i + 2 && |Recent(before, V2_DEPTH)| < 15 && SevenTenths(x.rated)))
    ensures blocks[i].By? && blocks[i] != blocks[j]
  {
    hide WindowOfV2, Recent, Mineable;
    WindowByMiners(x, blocks[i + 1..]);
    if j == i + 2 {
      WindowIsExactly(x, blocks[i + 1..]);
    }
    MinersPause(window, blocks, n, i, j);
  }
}
