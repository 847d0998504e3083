/** Whole runs: blocks are connected to the tip and the tip is disconnected, in any order,
    with the coin set and both address indexes kept along (src/core/main.cpp). */
module ChainRun {
  import opened Common
  import opened Transactions
  import opened CoinSet
  import opened BlockUndo
  import opened CoinSums
  import opened AddressIndex
  import opened AddressDeltas
  import opened Ledger

  // ----- both indexes over a block

  function BlockIndex(idx: UnspentIndex, v: View, txs: seq<Tx>, height: int): UnspentIndex {
    if txs == [] then idx
    else
      var init, tx := txs[..|txs| - 1], txs[|txs| - 1];
      match ConnectTxs(v, init, height)
      case None => idx
      case Some((v1, _)) => ConnectIndex(BlockIndex(idx, v, init, height), v1, tx, height)
  }

  function BlockDeltas(d: DeltaIndex, v: View, txs: seq<Tx>, height: int): DeltaIndex {
    if txs == [] then d
    else
      var init, tx := txs[..|txs| - 1], txs[|txs| - 1];
      match ConnectTxs(v, init, height)
      case None => d
      case Some((v1, _)) => ConnectDeltas(BlockDeltas(d, v, init, height), v1, tx, height, |init|)
  }

  function UndoOf(undos: seq<seq<Undo>>, last: nat): seq<Undo>
    requires last <= |undos|
  {
    if last == 0 then [] else undos[last - 1]
  }

  function UndosBefore(undos: seq<seq<Undo>>, last: nat): seq<seq<Undo>>
    requires last <= |undos|
  {
    if last == 0 then [] else undos[..last - 1]
  }

  /** The undo records have the shape that DisconnectBlock checks for. */
  predicate UndoMatches(txs: seq<Tx>, undos: seq<seq<Undo>>)
    decreases |txs|
  {
    if txs == [] then undos == []
    else
      var last := |txs| - 1;
      && |undos| == last
      && (last > 0 ==> |UndoOf(undos, last)| == |txs[last].vin|)
      && UndoMatches(txs[..last], UndosBefore(undos, last))
  }

  function UndoIndex(idx: UnspentIndex, txs: seq<Tx>, undos: seq<seq<Undo>>): UnspentIndex
    requires UndoMatches(txs, undos)
    decreases |txs|
  {
    if txs == [] then idx
    else
      var last := |txs| - 1;
      UndoIndex(DisconnectIndex(idx, txs[last], UndoOf(undos, last), last == 0),
                txs[..last], UndosBefore(undos, last))
  }

  function UndoDeltas(d: DeltaIndex, txs: seq<Tx>, undos: seq<seq<Undo>>, height: int): DeltaIndex
    requires UndoMatches(txs, undos)
    decreases |txs|
  {
    if txs == [] then d
    else
      var last := |txs| - 1;
      UndoDeltas(DisconnectDeltas(d, txs[last], UndoOf(undos, last), height, last, last == 0),
                 txs[..last], UndosBefore(undos, last), height)
  }

  /** The dead entries of the unspent index after a block. */
  function BlockDead(v: View, txs: seq<Tx>, height: int, dead: set<UnspentKey>): set<UnspentKey> {
    if txs == [] then dead
    else
      var init, tx := txs[..|txs| - 1], txs[|txs| - 1];
      match ConnectTxs(v, init, height)
      case None => dead
      case Some((v1, _)) =>
        match SpendPhase(v1, tx)
        case None => dead
        case Some((v2, _)) => DeadAfter(v2, BlockDead(v, init, height, dead), tx)
  }

  function UndoDead(dead: set<UnspentKey>, txs: seq<Tx>): set<UnspentKey>
    decreases |txs|
  {
    if txs == [] then dead else UndoDead(DeadBefore(dead, txs[|txs| - 1]), txs[..|txs| - 1])
  }

  /** What a block makes the index count for an address without a coin. */
  function BlockLost(v: View, txs: seq<Tx>, height: int, a: Address): int {
    if txs == [] then 0
    else
      var init, tx := txs[..|txs| - 1], txs[|txs| - 1];
      match ConnectTxs(v, init, height)
      case None => 0
      case Some((v1, _)) =>
        match SpendPhase(v1, tx)
        case None => 0
        case Some((v2, _)) => BlockLost(v, init, height, a) + LostBy(v2, tx, a)
  }

  // ----- one block

  /** A block that ConnectBlock accepts, but for the amount of the coinbase. */
  predicate Accepted(p: Params, v: View, txs: seq<Tx>, height: int) {
    CoinbaseFirst(txs) && AllPass(p, v, txs, height)
  }

  /** What is known of the last transaction of a block when it is connected. */
  lemma AcceptedLast(p: Params, v: View, txs: seq<Tx>, height: int)
    requires ProperView(v) && height != 0 && txs != [] && Accepted(p, v, txs, height)
    ensures var init, tx := txs[..|txs| - 1], txs[|txs| - 1];
            && Accepted(p, v, init, height) && ConnectTxs(v, init, height).Some? && ConnectTxs(v, txs, height).Some?
            && (!Overwrites(v, txs, height) ==> !Overwrites(v, init, height))
            && var v1 := ConnectTxs(v, init, height).value.0;
               && ProperView(v1) && UpdateCoins(v1, tx, height).Some? && ValuesAreValid(tx)
               && ConnectTxs(v, txs, height).value.0 == UpdateCoins(v1, tx, height).value.0
               && (!Overwrites(v, txs, height) ==> !Replaces(v1, tx))
               && (!tx.IsCoinBase() ==> HaveInputs(v1, tx.vin) && Distinct(tx.vin))
               && (tx.IsCoinBase() <==> |txs| == 1)
  {
    hide UpdateCoins, Replaces, CheckTransaction, CheckInputs;
    var init := txs[..|txs| - 1];
    AllPassCanConnect(p, v, txs, height);
    AllPassCanConnect(p, v, init, height);
    LastPasses(p, v, txs, height);
  }

  lemma LastPasses(p: Params, v: View, txs: seq<Tx>, height: int)
    requires txs != [] && AllPass(p, v, txs, height) && ConnectTxs(v, txs[..|txs| - 1], height).Some?
    ensures var tx, v1 := txs[|txs| - 1], ConnectTxs(v, txs[..|txs| - 1], height).value.0;
            !tx.IsCoinBase() ==> HaveInputs(v1, tx.vin) && Distinct(tx.vin)
  {
    hide ConnectTxs, HaveInputs, Distinct;
  }

  lemma AcceptedUndo(p: Params, v: View, txs: seq<Tx>, height: int)
    requires ProperView(v) && height != 0 && txs != [] && Accepted(p, v, txs, height)
    ensures var init, last := txs[..|txs| - 1], |txs| - 1;
            && ConnectTxs(v, init, height).Some? && ConnectTxs(v, txs, height).Some?
            && var (v1, undos1), (v', undos) := ConnectTxs(v, init, height).value, ConnectTxs(v, txs, height).value;
               && UpdateCoins(v1, txs[last], height).Some?
               && UpdateCoins(v1, txs[last], height).value.0 == v'
               && UndoOf(undos, last) == (if last == 0 then [] else UpdateCoins(v1, txs[last], height).value.1)
               && UndosBefore(undos, last) == undos1
  {
    hide UpdateCoins, Accepted;
    AcceptedLast(p, v, txs, height);
  }

  lemma {:induction false} AcceptedUndoMatches(p: Params, v: View, txs: seq<Tx>, height: int)
    requires ProperView(v) && height != 0 && Accepted(p, v, txs, height)
    ensures ConnectTxs(v, txs, height).Some? && UndoMatches(txs, ConnectTxs(v, txs, height).value.1)
  {
    hide UpdateCoins, Accepted, ProperView;
    if txs != [] {
      AcceptedLast(p, v, txs, height);
      AcceptedUndo(p, v, txs, height);
      AcceptedUndoMatches(p, v, txs[..|txs| - 1], height);
    }
  }

  lemma {:induction false} BlockMatchesBut(p: Params, v: View, idx: UnspentIndex, dead: set<UnspentKey>, txs: seq<Tx>,
                                           height: int)
    requires ProperView(v) && height != 0 && Accepted(p, v, txs, height)
    requires MatchesBut(v, idx, dead) && NoneIsLive(v, dead)
    ensures ConnectTxs(v, txs, height).Some?
    ensures MatchesBut(ConnectTxs(v, txs, height).value.0, BlockIndex(idx, v, txs, height),
                       BlockDead(v, txs, height, dead))
    ensures NoneIsLive(ConnectTxs(v, txs, height).value.0, BlockDead(v, txs, height, dead))
  {
    hide UpdateCoins, Accepted, ProperView, MatchesBut, NoneIsLive, ConnectIndex, DeadAfter, SpendPhase, Overwrites;
    if txs != [] {
      var init, tx := txs[..|txs| - 1], txs[|txs| - 1];
      AcceptedLast(p, v, txs, height);
      BlockMatchesBut(p, v, idx, dead, init, height);
      var v1 := ConnectTxs(v, init, height).value.0;
      CanSpendPhase(v1, tx, height);
      ConnectMatchesBut(v1, BlockIndex(idx, v, init, height), BlockDead(v, init, height, dead), tx, height);
    }
  }

  lemma CanSpendPhase(v: View, tx: Tx, height: int)
    requires UpdateCoins(v, tx, height).Some?
    ensures SpendPhase(v, tx).Some?
  {
  }

  lemma {:induction false} UndoMatchesBut(p: Params, v: View, idx: UnspentIndex, dead: set<UnspentKey>, txs: seq<Tx>,
                                          height: int)
    requires ProperView(v) && height != 0 && Accepted(p, v, txs, height) && !Overwrites(v, txs, height)
    requires ConnectTxs(v, txs, height).Some? && UndoMatches(txs, ConnectTxs(v, txs, height).value.1)
    requires MatchesBut(ConnectTxs(v, txs, height).value.0, idx, dead)
    ensures MatchesBut(v, UndoIndex(idx, txs, ConnectTxs(v, txs, height).value.1), UndoDead(dead, txs))
    decreases |txs|
  {
    hide UpdateCoins, Accepted, ProperView, MatchesBut, DisconnectIndex, DeadBefore, ConnectTxs, Overwrites;
    if txs != [] {
      var last := |txs| - 1;
      var init, tx := txs[..last], txs[last];
      AcceptedLast(p, v, txs, height);
      AcceptedUndo(p, v, txs, height);
      var (v1, undos1) := ConnectTxs(v, init, height).value;
      var undo := UpdateCoins(v1, tx, height).value.1;
      FirstHasNoUndo(v1, tx, height);
      DisconnectMatchesBut(v1, idx, dead, tx, height);
      AcceptedUndoMatches(p, v, init, height);
      UndoMatchesBut(p, v, DisconnectIndex(idx, tx, undo, last == 0), DeadBefore(dead, tx), init, height);
    } else {
      NothingConnected(v, height);
    }
  }

  lemma NothingConnected(v: View, height: int)
    ensures ConnectTxs(v, [], height) == Some((v, []))
  {
  }

  /** More dead entries before are no fewer after. */
  lemma {:induction false} BlockDeadGrows(v: View, txs: seq<Tx>, height: int, a: set<UnspentKey>, b: set<UnspentKey>)
    requires a <= b
    ensures BlockDead(v, txs, height, a) <= BlockDead(v, txs, height, b)
  {
    hide ConnectTxs, SpendPhase, OutKeys, ReplacedKeys;
    if txs != [] {
      BlockDeadGrows(v, txs[..|txs| - 1], height, a, b);
    }
  }

  /** Undoing a block that overwrote nothing leaves no dead entry that was not there before. */
  lemma {:induction false} UndoDeadWithin(p: Params, v: View, txs: seq<Tx>, height: int, dead: set<UnspentKey>,
                                          before: set<UnspentKey>)
    requires ProperView(v) && height != 0 && Accepted(p, v, txs, height) && !Overwrites(v, txs, height)
    requires dead <= BlockDead(v, txs, height, before)
    ensures UndoDead(dead, txs) <= before
    decreases |txs|
  {
    hide ConnectTxs, SpendPhase, OutKeys, ReplacedKeys, UpdateCoins, Accepted, ProperView, Overwrites, Replaces;
    if txs != [] {
      var init, tx := txs[..|txs| - 1], txs[|txs| - 1];
      AcceptedLast(p, v, txs, height);
      var v1 := ConnectTxs(v, init, height).value.0;
      CanSpendPhase(v1, tx, height);
      NothingReplaced(v1, tx);
      UndoDeadWithin(p, v, init, height, DeadBefore(dead, tx), before);
    }
  }

  /** No entry at this height is there before the block is connected. */
  ghost predicate UnusedHeight(d: DeltaIndex, height: int) {
    forall key :: key in d ==> key.height != height
  }

  lemma {:induction false} BlockUsesItsKeys(d: DeltaIndex, v: View, txs: seq<Tx>, height: int, key: DeltaKey)
    requires key in BlockDeltas(d, v, txs, height)
    ensures key in d || (key.height == height && key.position < |txs|)
  {
    if txs != [] && ConnectTxs(v, txs[..|txs| - 1], height).Some? {
      var init, tx := txs[..|txs| - 1], txs[|txs| - 1];
      var d1, v1 := BlockDeltas(d, v, init, height), ConnectTxs(v, init, height).value.0;
      ConnectUsesItsKeys(d1, v1, tx, height, |init|, key);
      if key in d1 {
        BlockUsesItsKeys(d, v, init, height, key);
      }
    }
  }

  lemma PositionUnused(d: DeltaIndex, v: View, txs: seq<Tx>, height: int)
    requires UnusedHeight(d, height)
    ensures Unused(BlockDeltas(d, v, txs, height), height, |txs|)
  {
    forall key | key in BlockDeltas(d, v, txs, height) ensures !KeyOf(key, height, |txs|) {
      BlockUsesItsKeys(d, v, txs, height, key);
    }
  }

  lemma {:induction false} BlockAccounts(p: Params, v: View, d: DeltaIndex, txs: seq<Tx>, height: int, a: Address)
    requires ProperView(v) && height != 0 && Accepted(p, v, txs, height) && UnusedHeight(d, height)
    ensures ConnectTxs(v, txs, height).Some?
    ensures Excess(ConnectTxs(v, txs, height).value.0, BlockDeltas(d, v, txs, height), a)
            == Excess(v, d, a) + BlockLost(v, txs, height, a)
  {
    hide UpdateCoins, Accepted, ProperView, Excess, ConnectDeltas, LostBy, SpendPhase, Overwrites;
    if txs != [] {
      var init, tx := txs[..|txs| - 1], txs[|txs| - 1];
      AcceptedLast(p, v, txs, height);
      BlockAccounts(p, v, d, init, height, a);
      PositionUnused(d, v, init, height);
      var v1 := ConnectTxs(v, init, height).value.0;
      CanSpendPhase(v1, tx, height);
      ConnectAccounts(v1, BlockDeltas(d, v, init, height), tx, height, |init|, a);
    }
  }

  lemma {:induction false} BlockDeltasAreErased(p: Params, v: View, d: DeltaIndex, txs: seq<Tx>, height: int)
    requires ProperView(v) && height != 0 && Accepted(p, v, txs, height) && UnusedHeight(d, height)
    requires ConnectTxs(v, txs, height).Some? && UndoMatches(txs, ConnectTxs(v, txs, height).value.1)
    ensures UndoDeltas(BlockDeltas(d, v, txs, height), txs, ConnectTxs(v, txs, height).value.1, height) == d
    decreases |txs|
  {
    hide UpdateCoins, Accepted, ProperView, ConnectDeltas, DisconnectDeltas;
    if txs != [] {
      var last := |txs| - 1;
      var init, tx := txs[..last], txs[last];
      AcceptedLast(p, v, txs, height);
      AcceptedUndo(p, v, txs, height);
      PositionUnused(d, v, init, height);
      var v1 := ConnectTxs(v, init, height).value.0;
      FirstHasNoUndo(v1, tx, height);
      DeltasAreErased(BlockDeltas(d, v, init, height), v1, tx, height, last);
      AcceptedUndoMatches(p, v, init, height);
      BlockDeltasAreErased(p, v, d, init, height);
    }
  }

  lemma FirstHasNoUndo(v: View, tx: Tx, height: int)
    requires UpdateCoins(v, tx, height).Some?
    ensures tx.IsCoinBase() ==> UpdateCoins(v, tx, height).value.1 == []
  {
  }

  // ----- chains

  /** The coin set, the entries and the dead ones that a chain of blocks leads to. */
  function ViewOf(blocks: seq<BlockRecord>): View {
    if blocks == [] then map[]
    else
      match ConnectTxs(ViewOf(blocks[..|blocks| - 1]), blocks[|blocks| - 1].txs, |blocks|)
      case None => map[]
      case Some((v, _)) => v
  }

  function DeltasOf(blocks: seq<BlockRecord>): DeltaIndex {
    if blocks == [] then map[]
    else
      var init := blocks[..|blocks| - 1];
      BlockDeltas(DeltasOf(init), ViewOf(init), blocks[|blocks| - 1].txs, |blocks|)
  }

  function UnspentOf(blocks: seq<BlockRecord>): UnspentIndex {
    if blocks == [] then map[]
    else
      var init := blocks[..|blocks| - 1];
      BlockIndex(UnspentOf(init), ViewOf(init), blocks[|blocks| - 1].txs, |blocks|)
  }

  function DeadOf(blocks: seq<BlockRecord>): set<UnspentKey> {
    if blocks == [] then {}
    else
      var init := blocks[..|blocks| - 1];
      BlockDead(ViewOf(init), blocks[|blocks| - 1].txs, |blocks|, DeadOf(init))
  }

  /** What the address has received without a coin, in the blocks of the chain. */
  function LostTo(blocks: seq<BlockRecord>, a: Address): int {
    if blocks == [] then 0
    else
      var init := blocks[..|blocks| - 1];
      LostTo(init, a) + BlockLost(ViewOf(init), blocks[|blocks| - 1].txs, |blocks|, a)
  }

  /** Every block was valid on top of the ones before it. */
  predicate ChainIsValid(p: Params, blocks: seq<BlockRecord>)
    requires p.halvingInterval > 0
  {
    blocks == [] ||
    var init, b := blocks[..|blocks| - 1], blocks[|blocks| - 1];
    && ChainIsValid(p, init)
    && ValidBlock(p, ViewOf(init), b.txs, |blocks|)
    && ConnectTxs(ViewOf(init), b.txs, |blocks|).Some?
    && b.undos == ConnectTxs(ViewOf(init), b.txs, |blocks|).value.1
  }

  lemma ValidMeans(p: Params, v: View, txs: seq<Tx>, height: nat)
    requires p.halvingInterval > 0 && ValidBlock(p, v, txs, height)
    ensures txs != [] && Accepted(p, v, txs, height)
  {
    hide AllPass, CoinbaseFirst;
  }

  lemma ChainParts(p: Params, blocks: seq<BlockRecord>)
    requires p.halvingInterval > 0 && ChainIsValid(p, blocks) && blocks != []
    ensures var init, b := blocks[..|blocks| - 1], blocks[|blocks| - 1];
            && ChainIsValid(p, init) && ValidBlock(p, ViewOf(init), b.txs, |blocks|)
            && ConnectTxs(ViewOf(init), b.txs, |blocks|) == Some((ViewOf(blocks), b.undos))
            && UnspentOf(blocks) == BlockIndex(UnspentOf(init), ViewOf(init), b.txs, |blocks|)
            && DeltasOf(blocks) == BlockDeltas(DeltasOf(init), ViewOf(init), b.txs, |blocks|)
            && DeadOf(blocks) == BlockDead(ViewOf(init), b.txs, |blocks|, DeadOf(init))
  {
    hide ConnectTxs, ValidBlock, BlockDeltas, BlockDead, BlockIndex;
  }

  lemma {:induction false} ChainProper(p: Params, blocks: seq<BlockRecord>)
    requires p.halvingInterval > 0 && ChainIsValid(p, blocks)
    ensures ProperView(ViewOf(blocks))
  {
    hide ConnectTxs, ValidBlock;
    if blocks != [] {
      var init, b := blocks[..|blocks| - 1], blocks[|blocks| - 1];
      ChainProper(p, init);
      ValidMeans(p, ViewOf(init), b.txs, |blocks|);
      AllPassCanConnect(p, ViewOf(init), b.txs, |blocks|);
    }
  }

  lemma {:induction false} ChainHeights(blocks: seq<BlockRecord>, key: DeltaKey)
    requires key in DeltasOf(blocks)
    ensures key.height <= |blocks|
  {
    if blocks != [] {
      var init := blocks[..|blocks| - 1];
      BlockUsesItsKeys(DeltasOf(init), ViewOf(init), blocks[|blocks| - 1].txs, |blocks|, key);
      if key in DeltasOf(init) {
        ChainHeights(init, key);
      }
    }
  }

  lemma NextHeightUnused(blocks: seq<BlockRecord>)
    ensures UnusedHeight(DeltasOf(blocks), |blocks| + 1)
  {
    forall key | key in DeltasOf(blocks) ensures key.height != |blocks| + 1 {
      ChainHeights(blocks, key);
    }
  }

  lemma EmptyBooks(a: Address)
    ensures Excess(map[], map[], a) == 0 && MatchesBut(map[], map[], {}) && NoneIsLive(map[], {})
    ensures ProperView(map[])
  {
  }

  /** After any valid chain, an address's entries sum to what it has unspent plus what it was
      paid without a coin: in outputs that cannot be spent, and in coins that were replaced. */
  lemma {:induction false} ChainBalanced(p: Params, blocks: seq<BlockRecord>, a: Address)
    requires p.halvingInterval > 0 && ChainIsValid(p, blocks)
    ensures Excess(ViewOf(blocks), DeltasOf(blocks), a) == LostTo(blocks, a)
    ensures Balanced(ViewOf(blocks), DeltasOf(blocks), a) <==> LostTo(blocks, a) == 0
  {
    hide ConnectTxs, ValidBlock, BlockDeltas, BlockLost;
    if blocks == [] {
      EmptyBooks(a);
    } else {
      var init, b := blocks[..|blocks| - 1], blocks[|blocks| - 1];
      ChainBalanced(p, init, a);
      ChainProper(p, init);
      ValidMeans(p, ViewOf(init), b.txs, |blocks|);
      NextHeightUnused(init);
      BlockAccounts(p, ViewOf(init), DeltasOf(init), b.txs, |blocks|, a);
    }
  }

  /** And the unspent index holds every live output and exactly the dead entries. */
  lemma {:induction false} ChainMatchesBut(p: Params, blocks: seq<BlockRecord>)
    requires p.halvingInterval > 0 && ChainIsValid(p, blocks)
    ensures MatchesBut(ViewOf(blocks), UnspentOf(blocks), DeadOf(blocks))
    ensures NoneIsLive(ViewOf(blocks), DeadOf(blocks))
  {
    hide *;
    if blocks == [] {
      EmptyBooks(Address(0, 0));
      NoBlocks();
    } else {
      var init, b := blocks[..|blocks| - 1], blocks[|blocks| - 1];
      ChainParts(p, blocks);
      ChainMatchesBut(p, init);
      ChainProper(p, init);
      ValidMeans(p, ViewOf(init), b.txs, |blocks|);
      BlockMatchesBut(p, ViewOf(init), UnspentOf(init), DeadOf(init), b.txs, |blocks|);
    }
  }

  lemma NoBlocks()
    ensures ViewOf([]) == map[] && UnspentOf([]) == map[] && DeltasOf([]) == map[] && DeadOf([]) == {}
  {
  }

  function Subsidies(p: Params, height: nat): nat
    requires p.halvingInterval > 0
  {
    if height == 0 then 0 else Subsidies(p, height - 1) + GetSubsidy(p, height)
  }

  /** After any valid chain the coins are worth at most the subsidies. */
  lemma {:induction false} ChainWorth(p: Params, blocks: seq<BlockRecord>)
    requires p.halvingInterval > 0 && ChainIsValid(p, blocks) && p.nativeCurrency
    ensures Total(Worth, ViewOf(blocks)) <= Subsidies(p, |blocks|)
  {
    hide ConnectTxs, ValidBlock;
    if blocks != [] {
      var init := blocks[..|blocks| - 1];
      ChainWorth(p, init);
      ChainProper(p, init);
      BlockCreatesAtMostSubsidy(p, ViewOf(init), blocks[|blocks| - 1].txs, |blocks|);
    }
  }

  // ----- chains without dead entries

  predicate TipOverwrites(blocks: seq<BlockRecord>)
    requires blocks != []
  {
    Overwrites(ViewOf(blocks[..|blocks| - 1]), blocks[|blocks| - 1].txs, |blocks|)
  }

  /** No block overwrites coins, and none has an output with an address that cannot be spent. */
  predicate IsClean(blocks: seq<BlockRecord>) {
    blocks == [] ||
    var txs := blocks[|blocks| - 1].txs;
    && IsClean(blocks[..|blocks| - 1]) && !TipOverwrites(blocks)
    && forall i :: 0 <= i < |txs| ==> AddressesAreSpendable(txs[i])
  }

  lemma {:induction false} CleanBlock(p: Params, v: View, txs: seq<Tx>, height: int, a: Address)
    requires ProperView(v) && height != 0 && Accepted(p, v, txs, height) && !Overwrites(v, txs, height)
    requires forall i :: 0 <= i < |txs| ==> AddressesAreSpendable(txs[i])
    ensures BlockDead(v, txs, height, {}) == {} && BlockLost(v, txs, height, a) == 0
  {
    hide ConnectTxs, SpendPhase, UpdateCoins, Accepted, ProperView, Overwrites, Replaces, AddressesAreSpendable,
      LostBy, DeadAfter;
    if txs != [] {
      var init, tx := txs[..|txs| - 1], txs[|txs| - 1];
      AcceptedLast(p, v, txs, height);
      CleanBlock(p, v, init, height, a);
      var v1 := ConnectTxs(v, init, height).value.0;
      CanSpendPhase(v1, tx, height);
      CleanTx(v1, tx, a);
    }
  }

  lemma CleanTx(v: View, tx: Tx, a: Address)
    requires SpendPhase(v, tx).Some? && !Replaces(v, tx) && AddressesAreSpendable(tx)
    ensures DeadAfter(SpendPhase(v, tx).value.0, {}, tx) == {} && LostBy(SpendPhase(v, tx).value.0, tx, a) == 0
  {
    NothingReplaced(v, tx);
    SpendableMeans(tx);
    SumOutsZero(Unspendable(PaysTo(a)), tx.vout);
  }

  lemma {:induction false} CleanChain(p: Params, blocks: seq<BlockRecord>, a: Address)
    requires p.halvingInterval > 0 && ChainIsValid(p, blocks) && IsClean(blocks)
    ensures DeadOf(blocks) == {} && LostTo(blocks, a) == 0
  {
    hide ConnectTxs, ValidBlock, BlockDead, BlockLost, Overwrites, AddressesAreSpendable;
    if blocks != [] {
      var init, b := blocks[..|blocks| - 1], blocks[|blocks| - 1];
      CleanChain(p, init, a);
      ChainProper(p, init);
      ValidMeans(p, ViewOf(init), b.txs, |blocks|);
      CleanBlock(p, ViewOf(init), b.txs, |blocks|, a);
    }
  }

  // ----- runs

  /** The blocks above the genesis block, whose own outputs are never added, and the books. The
      block at index i has height i + 1. Which entries of the unspent index are dead is kept
      along. */
  datatype State = State(
    blocks: seq<BlockRecord>, view: View, unspent: UnspentIndex, deltas: DeltaIndex, dead: set<UnspentKey>)

  datatype Event = Connect(txs: seq<Tx>) | Disconnect

  const START := State([], map[], map[], map[], {})

  /** ConnectBlock accepts valid blocks. A tip is disconnected that has not overwritten coins:
      otherwise the rollback is not exact. */
  predicate Legal(p: Params, s: State, e: Event)
    requires p.halvingInterval > 0
  {
    match e
    case Connect(txs) => ValidBlock(p, s.view, txs, |s.blocks| + 1)
    case Disconnect => s.blocks != [] && !TipOverwrites(s.blocks)
  }

  function Step(p: Params, s: State, e: Event): State
    requires p.halvingInterval > 0 && Legal(p, s, e)
  {
    match e
    case Connect(txs) =>
      var height := |s.blocks| + 1;
      (match ConnectTxs(s.view, txs, height)
       case None => s
       case Some((v, undos)) =>
         State(s.blocks + [BlockRecord(txs, undos)], v,
               BlockIndex(s.unspent, s.view, txs, height), BlockDeltas(s.deltas, s.view, txs, height),
               BlockDead(s.view, txs, height, s.dead)))
    case Disconnect =>
      var height := |s.blocks|;
      var b := s.blocks[height - 1];
      match DisconnectBlock(s.view, b.txs, b.undos, height)
      case None => s
      case Some((v, _)) =>
        if !UndoMatches(b.txs, b.undos) then s else
        State(s.blocks[..height - 1], v,
              UndoIndex(s.unspent, b.txs, b.undos), UndoDeltas(s.deltas, b.txs, b.undos, height),
              UndoDead(s.dead, b.txs))
  }

  ghost predicate Inv(p: Params, s: State)
    requires p.halvingInterval > 0
  {
    && ChainIsValid(p, s.blocks)
    && s.view == ViewOf(s.blocks) && s.deltas == DeltasOf(s.blocks)
    && MatchesBut(s.view, s.unspent, s.dead) && s.dead <= DeadOf(s.blocks)
  }

  lemma FewerAreNotLive(v: View, a: set<UnspentKey>, b: set<UnspentKey>)
    requires a <= b && NoneIsLive(v, b)
    ensures NoneIsLive(v, a)
  {
  }

  lemma ConnectExtendsChain(p: Params, blocks: seq<BlockRecord>, txs: seq<Tx>)
    requires p.halvingInterval > 0 && ChainIsValid(p, blocks)
    requires var v, height := ViewOf(blocks), |blocks| + 1;
             ValidBlock(p, v, txs, height) && ConnectTxs(v, txs, height).Some?
    ensures var v, height := ViewOf(blocks), |blocks| + 1;
            var (v', undos) := ConnectTxs(v, txs, height).value;
            var blocks' := blocks + [BlockRecord(txs, undos)];
            && ChainIsValid(p, blocks') && ViewOf(blocks') == v'
            && DeltasOf(blocks') == BlockDeltas(DeltasOf(blocks), v, txs, height)
            && DeadOf(blocks') == BlockDead(v, txs, height, DeadOf(blocks))
  {
    hide ConnectTxs, ValidBlock, BlockDeltas, BlockDead;
    var undos := ConnectTxs(ViewOf(blocks), txs, |blocks| + 1).value.1;
    var blocks' := blocks + [BlockRecord(txs, undos)];
    assert blocks'[..|blocks'| - 1] == blocks;
  }

  lemma ConnectKeepsInv(p: Params, s: State, txs: seq<Tx>)
    requires p.halvingInterval > 0 && Inv(p, s) && Legal(p, s, Connect(txs))
    ensures Inv(p, Step(p, s, Connect(txs)))
    ensures |Step(p, s, Connect(txs)).blocks| == |s.blocks| + 1
  {
    hide ConnectTxs, ValidBlock, BlockDeltas, BlockDead, BlockIndex, MatchesBut, NoneIsLive, ChainIsValid, ViewOf,
      DeltasOf, DeadOf;
    var height := |s.blocks| + 1;
    ChainProper(p, s.blocks);
    ValidMeans(p, s.view, txs, height);
    AllPassCanConnect(p, s.view, txs, height);
    ChainMatchesBut(p, s.blocks);
    FewerAreNotLive(s.view, s.dead, DeadOf(s.blocks));
    BlockMatchesBut(p, s.view, s.unspent, s.dead, txs, height);
    BlockDeadGrows(s.view, txs, height, s.dead, DeadOf(s.blocks));
    ConnectExtendsChain(p, s.blocks, txs);
  }

  /** Disconnecting the tip leads back to the books of the shorter chain. */
  lemma DisconnectKeepsInv(p: Params, s: State)
    requires p.halvingInterval > 0 && Inv(p, s) && Legal(p, s, Disconnect)
    ensures Inv(p, Step(p, s, Disconnect))
    ensures DisconnectBlock(s.view, s.blocks[|s.blocks| - 1].txs, s.blocks[|s.blocks| - 1].undos, |s.blocks|)
            == Some((ViewOf(s.blocks[..|s.blocks| - 1]), true))
  {
    hide ConnectTxs, ValidBlock, BlockDeltas, BlockDead, MatchesBut, ChainIsValid, ViewOf, DeltasOf, DeadOf,
      UndoMatches, UndoIndex, UndoDeltas, UndoDead, Overwrites, DisconnectBlock, WellFormed, Accepted;
    var height := |s.blocks|;
    var init, b := s.blocks[..height - 1], s.blocks[height - 1];
    var v := ViewOf(init);
    ChainParts(p, s.blocks);
    ChainProper(p, init);
    ValidMeans(p, v, b.txs, height);
    AcceptedWellFormed(p, v, b.txs, height);
    UndoIsExactUnlessOverwritten(v, b.txs, height);
    AcceptedUndoMatches(p, v, b.txs, height);
    UndoMatchesBut(p, v, s.unspent, s.dead, b.txs, height);
    UndoDeadWithin(p, v, b.txs, height, s.dead, DeadOf(init));
    NextHeightUnused(init);
    BlockDeltasAreErased(p, v, DeltasOf(init), b.txs, height);
  }

  lemma AcceptedWellFormed(p: Params, v: View, txs: seq<Tx>, height: int)
    requires ProperView(v) && height != 0 && Accepted(p, v, txs, height)
    ensures WellFormed(txs) && ConnectTxs(v, txs, height).Some?
  {
    AllPassCanConnect(p, v, txs, height);
  }

  predicate LegalRun(p: Params, s: State, es: seq<Event>)
    requires p.halvingInterval > 0
    decreases |es|, 0
  {
    es == [] || (LegalRun(p, s, es[..|es| - 1]) && Legal(p, After(p, s, es[..|es| - 1]), es[|es| - 1]))
  }

  function After(p: Params, s: State, es: seq<Event>): State
    requires p.halvingInterval > 0 && LegalRun(p, s, es)
    decreases |es|, 1
  {
    if es == [] then s else Step(p, After(p, s, es[..|es| - 1]), es[|es| - 1])
  }

  lemma StartInv(p: Params)
    requires p.halvingInterval > 0
    ensures Inv(p, START)
  {
    hide MatchesBut, ChainIsValid, ViewOf, DeltasOf, DeadOf, ProperView, NoneIsLive, Excess;
    EmptyBooks(Address(0, 0));
    NoBlocks();
    NoBlocksIsValid(p);
  }

  lemma NoBlocksIsValid(p: Params)
    requires p.halvingInterval > 0
    ensures ChainIsValid(p, [])
  {
  }

  lemma {:induction false} RunKeepsInv(p: Params, es: seq<Event>)
    requires p.halvingInterval > 0 && LegalRun(p, START, es)
    ensures Inv(p, After(p, START, es))
  {
    hide Step, Inv, Legal;
    if es == [] {
      StartInv(p);
    } else {
      var s := After(p, START, es[..|es| - 1]);
      RunKeepsInv(p, es[..|es| - 1]);
      match es[|es| - 1]
      case Connect(txs) => ConnectKeepsInv(p, s, txs);
      case Disconnect => DisconnectKeepsInv(p, s);
    }
  }

  /** After any run of connects and tip disconnects: the coin set is the one that the blocks now
      in the chain lead to, and with a native currency worth at most the subsidies up to the
      tip; every address's entries sum to what it has unspent plus what those blocks paid it
      without a coin; and the unspent index holds exactly the outputs with an address and its
      dead entries, so that it is right if and only if there are none. */
  lemma BooksAreRight(p: Params, es: seq<Event>)
    requires p.halvingInterval > 0 && LegalRun(p, START, es)
    ensures var s := After(p, START, es);
            && ChainIsValid(p, s.blocks) && s.view == ViewOf(s.blocks)
            && (p.nativeCurrency ==> Total(Worth, s.view) <= Subsidies(p, |s.blocks|))
            && (forall a: Address :: Balanced(s.view, s.deltas, a) <==> LostTo(s.blocks, a) == 0)
            && (forall a: Address :: Excess(s.view, s.deltas, a) == LostTo(s.blocks, a))
            && MatchesBut(s.view, s.unspent, s.dead) && s.dead <= DeadOf(s.blocks)
            && (Matches(s.view, s.unspent) <==> s.dead == {})
  {
    hide MatchesBut, Matches, NoneIsLive, Total, Excess, Balanced, Subsidies, ViewOf, DeltasOf, DeadOf, LostTo,
      ChainIsValid, Step;
    RunKeepsInv(p, es);
    var s := After(p, START, es);
    forall a: Address
      ensures Balanced(s.view, s.deltas, a) <==> LostTo(s.blocks, a) == 0
      ensures Excess(s.view, s.deltas, a) == LostTo(s.blocks, a)
    {
      ChainBalanced(p, s.blocks, a);
    }
    ChainMatchesBut(p, s.blocks);
    FewerAreNotLive(s.view, s.dead, DeadOf(s.blocks));
    MatchesIfNoneDead(s.view, s.unspent, s.dead);
    if p.nativeCurrency {
      ChainWorth(p, s.blocks);
    }
  }

  /** Whatever was connected in between: if the blocks now in the chain overwrite nothing and
      have no output with an address that cannot be spent, both indexes are right. */
  lemma CleanBooksMatch(p: Params, es: seq<Event>, a: Address)
    requires p.halvingInterval > 0 && LegalRun(p, START, es) && IsClean(After(p, START, es).blocks)
    ensures var s := After(p, START, es);
            Matches(s.view, s.unspent) && Balanced(s.view, s.deltas, a)
  {
    hide LegalRun, After, IsClean, Matches, MatchesBut, Balanced, Excess, ChainIsValid, ViewOf, DeadOf, LostTo, Total,
      Subsidies;
    BooksAreRight(p, es);
    CleanChain(p, After(p, START, es).blocks, a);
  }
}
