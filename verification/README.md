# Hdac node: a Dafny model of its ledger, protocols and arithmetic

Hdac is a node for a Bitcoin and MultiChain style block chain. This project models the parts of
it where correctness rests on an argument over many steps, and proves that argument in Dafny:

* **Coins and undo** (`CoinSet`, `BlockUndo`, `BlockRedo`, `CoinSums`, `CoinsView`). Blocks are applied
  to the set of unspent outputs and rolled back with undo records. A rollback is exact, and reported
  clean, if and only if no transaction of the block replaced coins that were still there; and any
  rollback that is reported clean can be taken back by connecting the block again.
* **Histories** (`CoinHistory`). In every valid chain each coin is as the transaction that made it
  says, no output is spent twice, and none of a coinbase before it is mature.
* **Indexes and money over whole runs** (`AddressIndex`, `AddressDeltas`, `Ledger`, `ValueChecks`,
  `ChainRun`, `Supply`). What a block adds to the worth of the coins, exactly. Over any run of
  connects and tip disconnects the coins are worth at most the subsidies up to the tip, and those
  stay below a fixed bound; and the address indexes agree with the coin set up to entries without a
  coin, which are named exactly.
* **Script check queue** (`CheckQueue`). One master and any number of workers as a state machine
  with two condition variables: right verdicts, right counters, fair batches, no lost wake-up, and
  `Wait` returns.
* **Merkle trees** (`MerkleTree`, `PartialMerkle`, `CompactSize`, `MerkleSize`, `MerkleBlock`,
  `BlockMerkle`). Partial trees: the round trip through bytes, soundness for arbitrary data, and the
  exact sizes. The tree of a block: branches prove positions, and the flag for repeated hashes finds
  every longer list with the root of another.
* **Memory pool** (`Mempool`, `Descendants`, `TxMemPool`, `CoinOrigins`, `PoolAndChain`, `PoolReplay`,
  `PoolRun`). Recursive removal takes out exactly the descendants. Through every run of accepts, removals,
  connected and disconnected blocks, what `CTxMemPool::check` asserts of maps, marks, sizes and
  inputs holds, and the whole pool can be applied to the coin set in an order of dependence.
* **Block tree** (`BlockTree`, `SkipSteps`, `Chain`, `Locator`, `BlockBodies`, `MedianTime`). Skip list
  and the longest walk in it (the 110 steps that a comment at src/core/main.cpp:4505 reports of
  simulations are the exact maximum up to a height of 2^18), active chain, locators, bodies that
  arrive in any order, median time past.
* **Work and difficulty** (`Uint256`, `Compact`, `Pow`) and the **ePoW block window** (`Epow`).
* **scrypt** (`Salsa`, `Scrypt`, `ScryptSse2`). The vector form, the scalar form and the definition
  in sections 3 to 6 of RFC 7914 compute the same function.

`dafny verify dfyconfig.toml` checks the whole project. Code of the source that changes objects or
arrays step by step is modelled by classes, arrays and loops, each proved against a function; the
theorems are about those functions.

## Where the code and its promises differ

* Undo is exact only without overwritten coins. The rule that would refuse them (BIP 30) is
  compiled out at src/core/main.cpp:2400-2424. `RepeatedCoinbaseIsNotUndone` gives a chain on
  which a rollback loses coins; `UndoIsExactUnlessOverwritten` gives the exact condition.
* The P2SH test (src/script/script.cpp:226-233) accepts trailing bytes, so a script can have an
  indexed address and an OP_RETURN. Such an output is indexed and never becomes a coin, which breaks
  both address indexes (`DeadOutputBreaksBoth`). `ConnectKeepsMatch` and `ConnectKeepsBalance` give
  the exact conditions for one transaction, `BooksAreRight` those for whole runs.
* Value is conserved if and only if there is a native currency (`ConservedIffNative`). Without it
  `GetValueOut` is 0 and `NoNativeCurrencyNoBound` shows a block that creates any amount.
* A comment (src/chain/merkleblock.h:48) bounds the flag bits by 2N - 1 for N hashes. That holds
  if and only if no node with a single child is descended into (`BitBound`, `BitBoundFails`). The
  guarantee above it, `SIZE <= 10 + ceil(32.25*N)`, fails too, by one byte for a tree of 1025
  matched txids (`GuaranteeFails`); `SizeIsAsGuaranteedIff` says when it holds.
* The next work is bounded by the average work of its window, for all times, if and only if the
  product of work and spacing fits into 256 bits or there is hardly any work (`WorkIsBoundedIff`).
* A window that took longer can make the next block harder: the short-range adjustment ends when
  the window is as slow as the last six blocks (`MoreTimeCanGiveLess`; `MoreTimeGivesNoLessIff` says
  exactly when it cannot).
* A stored block window that outlives its chain can shut out every miner (`StaleWindowShutsOutAll`).
  One of the chain that is checked never does (`WindowIsFair`, `NeverStuck`); one that was stored a
  block ago does exactly when its blocks are by different miners and there are no others
  (`LateWindowIff`).
* The next bits can fail the range check that the previous ones passed: exactly those of a computed
  target of zero, which is that of work above 2^255, and those of a previous target that becomes zero
  when it is scaled modulo 2^256 at a height switch (`NextIsWithinLimit`, `TargetIsZero`). Under a
  limit below 2^255 the second is the target 2^254 at the switch by 100 (`SmallLimitIsKept`,
  `ScaledTargetCanFail`).

## Assumptions

* Hashes: a txid stands for one transaction and is a hash of what it spends, so that spending goes
  up in some ranking; the Merkle hash of two nodes is injective.
* The mutex makes each critical section of the check queue one step. A wait may end spuriously.
* Values computed in floating point (0.2 in `GetBlockValue`, 0.7 in the block window), the clock,
  PBKDF2 and the checks of other subsystems are parameters, and statements hold for all of them;
  `Supply` asks that the product with 0.2 keeps order and makes nothing larger.
* Block heights of connected blocks are above 0: the outputs of the genesis block are never added.
* Batches that are written to the index databases are applied in order.

## Model

| member | source | states |
|---|---|---|
| CheckQueueProtocol.BatchIsFairShare | src/checkqueue.h:106-112 | a batch is one check, or at most nBatchSize and at most an equal share of the queue for each thread, idle ones counted twice; and no larger one is |
| CheckQueueProtocol.ReversedKeepsChecks | src/checkqueue.h:113-118 | a batch taken from the back holds the same checks as the part of the stack it came from |
| CheckQueueProtocol.DispatchTakesTop | src/checkqueue.h:92-121 | a critical section loses and copies no check: the queue before is the queue after plus the batch |
| CheckQueueProtocol.StepKeepsInv | src/checkqueue.h:70-159 | every atomic step of every thread keeps the protocol invariant |
| CheckQueueProtocol.RunKeepsInv | src/checkqueue.h:70-159 | every run from a state with the invariant ends in one |
| CheckQueueProtocol.VerdictsAreRight | src/checkqueue.h:70-144 | for every interleaving, Wait returns true exactly when all checks of the round are true; none runs twice, and true means that each ran once |
| CheckQueueProtocol.CountersAreRight | src/checkqueue.h:77-127 | nTodo is the queued checks plus all outstanding batches, nTotal and nIdle count threads; a master that waits un-notified sees an empty queue and a busy worker |
| CheckQueueProtocol.WorkersAreAwake | src/checkqueue.h:92-105 | in every run: while a check is queued and a worker is in the loop, some worker runs a batch or has been notified |
| CheckQueueProtocol.BatchesAreFair | src/checkqueue.h:106-118 | in every run: a thread that finds checks queued takes one, or as many as the batch size and a fair share by the threads in the loop allow, and no fewer |
| CheckQueueProtocol.IdleBetweenRounds | src/checkqueue.h:166-195 | whenever nothing was added since Wait returned, the queue is idle, so the assertion of CCheckQueueControl cannot fail |
| CheckQueueProtocol.SomeoneCanMove | src/checkqueue.h:92-105 | while the master is in Wait some thread can move without a spurious wake-up: no deadlock |
| CheckQueueProtocol.InternalDecreases | src/checkqueue.h:77-127 | every such move decreases a measure of the work that is left |
| CheckQueueProtocol.WaitEnds | src/checkqueue.h:77-127 | a run of such moves is no longer than the measure, and the master stays in its round or has returned once |
| CheckQueueProtocol.WaitReturns | src/checkqueue.h:140-144 | from every reachable state in Wait only finitely many moves follow, and when none is left Wait has returned, with the right verdict and the queue idle |
| CheckQueueProtocol.QuiescentMeansReturned | src/checkqueue.h:92-105 | a state without a possible move is one after the return |
| CheckQueue.CheckQueue.constructor | src/checkqueue.h:131-132 | a new queue is the initial state of the protocol |
| CheckQueue.CheckQueue.Add | src/checkqueue.h:146-159 | appends the checks in order, counts them, and notifies no one, one worker or all |
| CheckQueue.CheckQueue.CleanUp | src/checkqueue.h:80-90 | the clean-up of the protocol, and when the master is notified |
| CheckQueue.CheckQueue.Pass | src/checkqueue.h:79-121 | one critical section is exactly the step of the protocol |
| CheckQueue.CheckQueue.TakeBatch | src/checkqueue.h:112-118 | the loop moves the top of the stack, last check first |
| CheckQueue.CheckQueue.IsIdle | src/checkqueue.h:166-170 | the idle test of the protocol |
| CheckQueue.RunBatch | src/checkqueue.h:122-126 | the verdict is that of all checks; exactly those up to the first false one are called |
| CoinSet.HoleRefilled | src/storage/coins.cpp:36-50 | taking an output out, trimming, widening and putting it back gives the same outputs |
| CoinSet.RestoreUndoesSpend | src/storage/coins.cpp:36-50 | undoing a spend gives the coins back exactly; the undo record has a height exactly when the last output was spent |
| CoinSet.RestoreOneUndoes | src/chain/undo.h:14-29 | the same on the coin set, whether or not the entry went away |
| CoinSet.RestoreInputsUndoes | src/core/main.cpp:2134-2177 | restoring inputs in reverse order undoes spending them in order, also when several come from one transaction |
| CoinSet.SpendInputsElsewhere | src/core/main.cpp:1904-1918 | spending some outputs leaves every other output available, with the same contents |
| CoinSet.InputsCanBeSpent | src/core/main.cpp:1904-1912 | the assertion in UpdateCoins cannot fail after HaveInputs and the duplicate check, and the undo records hold the spent outputs |
| BlockUndo.DisconnectTxUndoes | src/core/main.cpp:2095-2177 | disconnecting a transaction right after connecting it is clean and exact if it replaced nothing |
| BlockUndo.DisconnectUndoes | src/core/main.cpp:2072-2213 | the same for a whole block, with outputs created and spent inside it |
| BlockUndo.OverwriteLoses | src/core/main.cpp:2095-2177 | if something was overwritten, the rollback is not clean or loses coins |
| BlockUndo.UndoIsExactUnlessOverwritten | src/core/main.cpp:2072-2213 | the rollback is clean and exact if and only if the block overwrote nothing |
| BlockUndo.UndoFits | src/core/main.cpp:2565-2569 | the undo records that ConnectBlock writes have the numbers that DisconnectBlock asks for |
| BlockUndo.FreshTxidsDoNotOverwrite | src/core/main.cpp:2400-2424 | txids that are new and different overwrite nothing |
| BlockUndo.RepeatedCoinbaseIsNotUndone | src/core/main.cpp:2400-2424 | a concrete block that repeats a coinbase and is not undone |
| BlockRedo.RestoreIsCleanIff | src/core/main.cpp:2157-2177 | when restoring an input is clean: the output is not there, and the record has a height if and only if nothing of its transaction is |
| BlockRedo.SpendUndoesRestore | src/core/main.cpp:2157-2177 | spending undoes a clean restore and writes the same record |
| BlockRedo.CleanRollbackCanBeRedone | src/core/main.cpp:2072-2213 | whatever undo records of that form were on disk, and for versions that are not negative: if the rollback is reported clean, connecting the block to what it leaves gives the coin set before and the same records |
| BlockRedo.ConnectedIsWritten | src/core/main.cpp:1904-1918 | the records of a connected block have that form: of an output that can be spent, and with the height only for the last one of its transaction |
| CoinHistory.NewCoinsAreAsMade | src/storage/coins.h:89-95 | the coins that a transaction makes have its coinbase verdict, height and version, and its outputs that can be spent |
| CoinHistory.CoinsHaveOrigins | src/core/main.cpp:1904-1918 | after any transactions every coin is as the last transaction with its txid made it |
| CoinHistory.PassesInChain | src/core/main.cpp:2277-2641 | every transaction of a valid chain passes the checks on the coins that those before it have left |
| CoinHistory.InputsAreMature | src/core/main.cpp:1948-1966 | in a valid chain every input spends a spendable output of the last transaction with the txid it names, and a coinbase only when it is mature |
| CoinHistory.CoinbasesMature | src/core/main.cpp:1954-1959 | with fresh txids, an output of the coinbase of a block is spent no earlier than maturity blocks later, and never before it |
| CoinHistory.NothingIsSpentTwice | src/core/main.cpp:2277-2641 | in a valid chain with fresh txids no two inputs name the same output |
| CoinHistory.CoinbaseSpendPassesIff | src/core/main.cpp:1954-1959 | a transaction that moves a coinbase output passes if and only if the coinbase is mature, to the block |
| CoinSums.UpdateCoinsTotal | src/core/main.cpp:1904-1918 | how every measure of outputs changes when a transaction is connected: spent, created and replaced coins account for it |
| AddressIndex.ConnectMatchesBut | src/core/main.cpp:2480-2563 | what connecting does to the unspent index exactly: it holds every live output, and besides the dead entries it had, those of replaced coins and those of outputs with an address that cannot be spent |
| AddressIndex.ConnectKeepsMatch | src/core/main.cpp:2480-2563 | a matching unspent index matches after a transaction that replaces nothing if and only if none of its outputs has an address and cannot be spent |
| AddressIndex.DisconnectMatchesBut | src/core/main.cpp:2100-2210 | what disconnecting does exactly: every entry of the transaction goes, dead or not, and what it spent is back |
| AddressIndex.DisconnectKeepsMatch | src/core/main.cpp:2100-2210 | disconnecting gives an index that matches the coin set before |
| AddressDeltas.DeltasAreErased | src/core/main.cpp:2100-2210 | disconnecting erases exactly the entries that connecting wrote |
| AddressDeltas.ConnectAccounts | src/core/main.cpp:2480-2563 | the entries of an address exceed its unspent amounts by what they did before, plus its outputs that cannot be spent, plus its coins that are replaced |
| AddressDeltas.ConnectKeepsBalance | src/core/main.cpp:2480-2563 | balanced entries stay so after a transaction that replaces nothing if and only if it pays the address nothing in outputs that cannot be spent |
| AddressDeltas.DeadOutputBreaksBoth | src/core/main.cpp:2537-2563 | a concrete coinbase after which neither index is right |
| Ledger.PassingCanConnect | src/core/main.cpp:1123-1186 | a transaction that passes the checks can be connected |
| Ledger.PassingLosesFee | src/core/main.cpp:1948-2021 | a transaction takes at least its fee out of the coins |
| Ledger.PassingAccounts | src/core/main.cpp:1948-2021 | a transaction that passes changes the worth of the coins by its outputs less its inputs, less exactly what it burns: outputs that cannot be spent and coins it replaces |
| Ledger.AllPassCanConnect | src/core/main.cpp:2277-2641 | a block whose transactions pass in turn can be connected |
| Ledger.BlockWorthIs | src/core/main.cpp:2516-2573 | what a block does to the worth of the coins exactly: less the fees, plus the coinbase, less what is burned |
| Ledger.BlockAddsSubsidy | src/core/main.cpp:2516-2599 | a valid block adds its subsidy, less exactly what the coinbase leaves of it and what the block burns |
| Ledger.BlockCreatesAtMostSubsidy | src/core/main.cpp:2516-2599 | connecting a valid block raises the worth of the coins by at most the subsidy at its height |
| Ledger.NoNativeCurrencyNoBound | src/core/main.cpp:2595-2599 | without a native currency a valid block creates any amount |
| Ledger.ConservedIffNative | src/core/main.cpp:2516-2599 | at a height with a subsidy below the money range, no valid block creates more than it if and only if there is a native currency |
| ChainRun.ChainBalanced | src/core/main.cpp:2480-2563 | after every valid chain an address's entries sum to its unspent amounts plus what it was paid without a coin; they balance if and only if that is nothing |
| ChainRun.ChainMatchesBut | src/core/main.cpp:2480-2563 | after every valid chain the unspent index holds the live outputs and exactly the dead entries of the chain, none of them live |
| ChainRun.ChainWorth | src/core/main.cpp:1716-1746 | after every chain of valid blocks the coins are worth at most the sum of the subsidies |
| ChainRun.ConnectKeepsInv | src/core/main.cpp:2277-2641 | connecting any valid block keeps coin set, entries and dead entries those of the chain |
| ChainRun.DisconnectKeepsInv | src/core/main.cpp:2072-2236 | disconnecting a tip that overwrote nothing leads cleanly back to the coin set and entries of the shorter chain, and leaves no dead entry that chain does not have |
| ChainRun.RunKeepsInv | src/core/main.cpp:2072-2641 | every run of connects and of disconnects of tips that overwrote nothing keeps the invariant |
| ChainRun.BooksAreRight | src/core/main.cpp:2072-2641 | after every such run: the coin set is that of the chain and its worth bounded; entries sum to balances plus what the chain paid without a coin; the unspent index holds the live outputs and the dead entries, and is right if and only if there are none |
| ChainRun.CleanBooksMatch | src/core/main.cpp:2072-2641 | whatever was connected in between, if the blocks now in the chain overwrite nothing and have no address on an output that cannot be spent, both indexes are right |
| Supply.FirstSubsidies | src/core/main.cpp:1716-1746 | the subsidy in the first interval, for each of the ranges that the first reward and the two adjustments cut out |
| Supply.HalvingLaw | src/core/main.cpp:1736-1745 | one interval later the subsidy is half, 63 times over, while the same reward rules hold |
| Supply.SubsidyIsBaseHalved | src/core/main.cpp:1736-1745 | at every height it is the integer part of the base over 2^halvings, so zero from 64 halvings on and before that exactly when the base is less |
| Supply.LoneCoinbaseIsValidIff | src/core/main.cpp:2595-2599 | a block with a lone coinbase is valid if and only if that takes no more than the subsidy |
| Supply.SubsidyNeverRises | src/core/main.cpp:1716-1746 | from height 16801 on, or without a first reward, no block has a higher subsidy than one before it |
| Supply.SupplyIsBounded | src/core/main.cpp:1716-1746 | however long the chain, the subsidies sum to at most twice the halving interval times any base that neither first reward exceeds |
| Supply.CoinsAreBounded | src/core/main.cpp:2516-2599 | after every such run all coins together are worth at most that |
| ValueChecks.CheckTransaction | src/core/main.cpp:1123-1186 | the loops decide: inputs and outputs there, every amount and partial sum in range, inputs different and not null |
| ValueChecks.HaveInputs | src/storage/coins.cpp:240-252 | the loop decides whether every input is unspent |
| ValueChecks.CheckInputs | src/core/main.cpp:1929-2021 | the loop decides: inputs there, coinbases mature, amounts and partial sums in range, no more out than in, fee in range |
| ValueChecks.GetValueIn | src/storage/coins.cpp:223-238 | the sum of the spent amounts, 0 for a coinbase or without a native currency |
| ValueChecks.GetValueOut | src/primitives/transaction.cpp:95-110 | the sum of the outputs, or an exception exactly when an amount or partial sum is out of range |
| CoinsView.CoinsView.UpdateCoins | src/core/main.cpp:1904-1918 | the loop changes the coins and collects the undo records as specified |
| CoinsView.CoinsView.ConnectTx | src/core/main.cpp:2480-2573 | the verdict is that of the checks; then fee, undo records and coins are as specified |
| CoinsView.CoinsView.ConnectBlock | src/core/main.cpp:2277-2641 | accepts exactly the valid blocks, with the coins and undo records as specified |
| CoinsView.CoinsView.DisconnectBlock | src/core/main.cpp:2072-2236 | the backward loop computes the specified rollback and fails in the same cases |
| MerkleTree.Children | src/chain/merkleblock.h:66-69 | the nodes below a node exist and split its range of txids |
| MerkleTree.RootCovers | src/chain/merkleblock.cpp:117-120 | the height that is searched for has one node, which covers all txids |
| MerkleTree.SameHashSameStart | src/chain/merkleblock.cpp:41-56 | under an injective hash, nodes of one height with the same hash start with the same txid |
| PartialMerkle.SiblingsDiffer | src/chain/merkleblock.cpp:98-103 | siblings over distinct txids have different hashes, so the check for equal branches never fires on honest data |
| PartialMerkle.ExtractBuilt | src/chain/merkleblock.cpp:58-110 | reading a node consumes exactly what building it wrote and gives its hash and its matches |
| PartialMerkle.BitCount | src/chain/merkleblock.h:43-49 | the bits are twice the hashes less one, plus the one-child nodes descended into |
| PartialMerkle.HashCount | src/chain/merkleblock.h:37-41 | there are at most as many hashes as txids |
| PartialMerkle.HashesPerMatch | src/chain/merkleblock.h:37-41 | there are at most 1 + matches * height hashes |
| PartialMerkle.BitBound | src/chain/merkleblock.h:48-49 | the bound 2N - 1 holds if and only if no one-child node was descended into |
| PartialMerkle.BitBoundFails | src/chain/merkleblock.h:48-49 | it fails for three txids with the last one matched |
| MerkleSize.OneChildBelowHeight | src/chain/merkleblock.h:66-69 | the one-child nodes are at most the odd levels, fewer than the height |
| MerkleSize.SizeIsAsGuaranteedIff | src/chain/merkleblock.h:32-49 | the serialized size exactly, and when it is at most 10 + ceil(32.25 * N), by the hashes and the one-child nodes |
| MerkleSize.SmallProofsFit | src/chain/merkleblock.h:32-35 | it is for fewer than 253 hashes and a height up to 32 |
| MerkleSize.LargeProofsFitIff | src/chain/merkleblock.h:32-35 | from 1009 hashes on it is if and only if there are at most 65535 and the one-child nodes fit into the last byte of flags |
| MerkleSize.GuaranteeFails | src/chain/merkleblock.h:32-35 | 1025 txids, all matched, take 33068 bytes where 33067 are guaranteed |
| MerkleSize.SizeIsWritten | src/chain/merkleblock.h:87-106 | the serialized size is the number of bytes that are sent |
| CompactSize.WrittenSize | src/utils/serialize.h:267-305 | as many bytes are written for a size as are counted |
| CompactSize.ReadWritten | src/utils/serialize.h:275-342 | a size that was written is read back, whatever follows |
| CompactSize.ReadIsWritten | src/utils/serialize.h:307-342 | a size has one form only: whatever is read was written so |
| CompactSize.TreeRead | src/chain/merkleblock.h:87-106 | the bytes of a partial tree give its number, hashes and flags back |
| CompactSize.TreeIsWritten | src/chain/merkleblock.h:87-106 | and no other bytes do |
| PartialMerkle.RoundTrip | src/chain/merkleblock.cpp:112-159 | for distinct txids, any mask and any padding, reading gives the root of the full tree and exactly the masked txids in order, never bad |
| PartialMerkle.MatchesAreSound | src/chain/merkleblock.cpp:76-159 | for arbitrary bits and hashes, if reading gives the root of a list of that length, every match is a txid of the list, at strictly increasing positions |
| PartialMerkle.StoredHashesCoverAll | src/chain/merkleblock.cpp:128-159 | if reading gives that root, the stored hashes are those of nodes that cover the whole list side by side, none of them in vain, with 2N - 1 bits and at most as many more as the tree is high, plus 7 |
| PartialMerkle.ReadsAreBounded | src/chain/merkleblock.cpp:76-110 | reading a node uses a hash at least, and 2N - 1 bits for N hashes plus at most one for each level on the right edge |
| MerkleBlock.Pack | src/chain/merkleblock.h:101-104 | bit p of the flags is bit p % 8 of byte p / 8, and the padding is 0 |
| MerkleBlock.Unpack | src/chain/merkleblock.h:93-99 | the bits that are read are those of the bytes |
| MerkleBlock.PartialMerkleTree.constructor | src/chain/merkleblock.cpp:112-124 | the object holds the specified partial tree |
| MerkleBlock.PartialMerkleTree.Read | src/chain/merkleblock.h:89-106 | the object holds the fields that were sent, padded to whole bytes |
| MerkleBlock.PartialMerkleTree.TraverseAndBuild | src/chain/merkleblock.cpp:58-74 | appends exactly the specified bits and hashes |
| MerkleBlock.PartialMerkleTree.TraverseAndExtract | src/chain/merkleblock.cpp:76-110 | counters, matches, hash and fBad are as specified, for arbitrary fields |
| MerkleBlock.PartialMerkleTree.ExtractMatches | src/chain/merkleblock.cpp:128-159 | root, matches and fBad are as specified |
| MerkleBlock.FindHeight | src/chain/merkleblock.cpp:117-120 | the loop finds the least height with one node |
| MerkleBlock.HasMatch | src/chain/merkleblock.cpp:59-62 | whether some txid in the range is matched |
| MerkleBlock.SendAndReceive | src/chain/merkleblock.h:89-106 | build, pack, unpack and extract together give the root and the masked txids |
| BlockMerkle.LevelIs | src/primitives/block.cpp:162-177 | node pos of level h is the hash that CalcHash of the partial trees gives |
| BlockMerkle.SameRoot | src/primitives/block.cpp:161-180 | the root of a block is the root that its partial trees are checked against |
| BlockMerkle.SameRootIsFlagged | src/primitives/block.cpp:131-137 | two lists with the same root at the same height are equal, or the longer one is flagged as mutated |
| BlockMerkle.RootAndFlagBind | src/primitives/block.cpp:130-139 | if no txid is the hash of two others, lists with the same root are equal, or the longer one is flagged: all ways to change the transactions and keep the root are detected |
| BlockMerkle.TwinIff | src/primitives/block.cpp:131-137 | there is a shorter list with the same root and height if and only if some level of more than two hashes ends in two equal ones |
| BlockMerkle.FlagIff | src/primitives/block.cpp:167-171 | the flag is that, or says that the two hashes below the root are equal |
| BlockMerkle.BranchProves | src/primitives/block.cpp:183-213 | a hash and a branch of the right length lead to the root if and only if the hash is the one at the position and the branch is its branch |
| BlockMerkle.Block.BuildMerkleTree | src/primitives/block.cpp:161-180 | the nested loops give all levels, the root, and the flag |
| BlockMerkle.Block.PushLevel | src/primitives/block.cpp:165-174 | the inner loop pushes the level above, and flags two equal hashes at the end |
| BlockMerkle.Block.GetMerkleBranch | src/primitives/block.cpp:183-197 | the branch of a position, building the tree first if need be |
| BlockMerkle.CheckMerkleBranch | src/primitives/block.cpp:199-213 | follows the branch, or 0 for the index -1 |
| BlockMerkle.BranchRoundTrip | src/primitives/block.cpp:183-213 | a transaction with its own branch leads to the root of its block |
| Salsa.XorBit | src/crypto/scrypt.cpp:188-237 | a bit of the xor is set when the bits differ, one of the or when one is set |
| Salsa.OrIsSum | src/crypto/scrypt.cpp:188 | parts that share no bit are put together by adding, so the or of the two shifts is the rotation |
| Salsa.Rotates7 | src/crypto/scrypt.cpp:188 | the two shifts and the or turn a word by 7: the high part goes below the low part |
| Salsa.Rotates9 | src/crypto/scrypt.cpp:188 | the two shifts and the or turn a word by 9: the high part goes below the low part |
| Salsa.Rotates13 | src/crypto/scrypt.cpp:188 | the two shifts and the or turn a word by 13: the high part goes below the low part |
| Salsa.Rotates18 | src/crypto/scrypt.cpp:188 | the two shifts and the or turn a word by 18: the high part goes below the low part |
| Salsa.RowsAreColumns | src/crypto/scrypt.cpp:212-236 | the row round is the column round on the square of words turned over |
| Salsa.QuarterExample | src/crypto/scrypt.cpp:213-223 | the quarter round on a single bit, as the Salsa20 specification gives it |
| Salsa.XorTwice | src/crypto/scrypt-sse2.cpp:51-62 | xor with both parts of a rotation one after the other is xor with their or |
| Salsa.ColumnsInLanes | src/crypto/scrypt-sse2.cpp:50-62 | the column round on registers is the scalar column round in permuted lanes |
| Salsa.RowsInLanes | src/crypto/scrypt-sse2.cpp:64-86 | with the shuffles around it, the row round is the scalar row round in the same lanes |
| Salsa.RoundsInLanes | src/crypto/scrypt-sse2.cpp:49-87 | any number of double rounds keeps the lane permutation |
| Salsa.XorSalsa8InLanes | src/crypto/scrypt-sse2.cpp:38-93 | the vector xor_salsa8 is the scalar one in permuted lanes |
| Scrypt.XorSalsa8Words | src/crypto/scrypt.cpp:190-254 | the loop over sixteen words computes Salsa20/8 of the xor of two blocks |
| Scrypt.MixWords | src/crypto/scrypt.cpp:272-273 | two calls on the halves of the array X are scryptBlockMix with r = 1 |
| Scrypt.ROMixWords | src/crypto/scrypt.cpp:270-281 | both loops with the table V are scryptROMix with N = 1024 |
| Scrypt.ScryptGeneric | src/crypto/scrypt.cpp:256-287 | the scalar form computes scrypt |
| Scrypt.ReadHasBytes | src/crypto/scrypt.h:30-36 | byte j of a word that is read is the j-th byte that is there, lowest first |
| Scrypt.ByteIs | src/crypto/scrypt.h:38-45 | byte j of a word is the integer part of a division by 256^j, modulo 256 |
| Scrypt.WordHasBytes | src/crypto/scrypt.h:38-45 | a word is the sum of its bytes in their places |
| Scrypt.EncodeDecode | src/crypto/scrypt.cpp:267-283 | writing the words that were read gives the bytes back |
| Scrypt.DecodeEncode | src/crypto/scrypt.cpp:267-283 | reading the bytes that were written gives the words back |
| ScryptSse2.XorSalsa8InPlace | src/crypto/scrypt-sse2.cpp:38-93 | the loop over registers is the vector function, and leaves the other half alone |
| ScryptSse2.ROMixVectors | src/crypto/scrypt-sse2.cpp:115-127 | both loops and the table keep the permuted image of scryptROMix |
| ScryptSse2.FiveIsBijective | src/crypto/scrypt-sse2.cpp:109-113 | i * 5 % 16 is a permutation of the lanes with inverse i * 13 % 16 |
| ScryptSse2.LoadVectors | src/crypto/scrypt-sse2.cpp:109-113 | the registers hold the bytes in permuted lanes |
| ScryptSse2.StoreLanes | src/crypto/scrypt-sse2.cpp:129-133 | storing gives the bytes back in their own order |
| ScryptSse2.ScryptVectors | src/crypto/scrypt-sse2.cpp:95-136 | the vector form computes scrypt |
| ScryptSse2.ScryptDetected | src/crypto/scrypt.cpp:289-293 | whichever form is chosen, the hash is the same |
| MempoolState.AddKeepsValid | src/chain/txmempool.cpp:472-498 | a guarded add keeps mapTx and mapNextTx inverse, the size counter and the spent index right |
| MempoolState.WithoutKeepsValid | src/chain/txmempool.cpp:827-898 | so does taking out any set of transactions |
| MempoolState.EraseOneIs | src/chain/txmempool.cpp:724-744 | what the loop erases for a transaction is what belongs to it, and nothing else |
| Descendants.ClosureIsDescendants | src/chain/txmempool.cpp:690-747 | the smallest set closed under spending is the set of transactions reached by a path of spends |
| Descendants.WorkTakes | src/chain/txmempool.cpp:709-722 | one turn of the worklist keeps: all roots and spenders of removed outputs are removed or listed, and nothing is listed without need |
| Descendants.WorkEnds | src/chain/txmempool.cpp:709-745 | an empty worklist means that exactly the closure is gone |
| Descendants.ClosuresCompose | src/chain/txmempool.cpp:774-789 | removing descendants one root after the other takes out what removing all at once does |
| BlockRemoval.BlockGoesOn | src/chain/txmempool.cpp:806-812 | one more block transaction keeps: the block and its conflicts are gone, no orphan is left, nothing else is lost |
| BlockRemoval.ConsistentBlock | src/chain/txmempool.cpp:794-813 | for a block that depends on no conflict, exactly the block and the descendants of its conflicts go |
| PoolAndChain.AddKeepsFed | src/core/main.cpp:1254-1317 | an accepted transaction leaves every input of the pool available |
| PoolAndChain.ClosedRemovalKeepsFed | src/chain/txmempool.cpp:840-855 | so does the removal of a set with all its descendants |
| PoolAndChain.ConnectKeepsFed | src/core/main.cpp:2917-2943 | after ConnectBlock and removeForBlock every input of the pool is available in the new coin set or the pool, also when the block overwrites coins |
| CoinOrigins.UpdateCoinsKeeps | src/core/main.cpp:1904-1918 | a coin that a transaction does not spend stays, also when it overwrites coins |
| CoinOrigins.ConnectedFrom | src/core/main.cpp:1904-1918 | what is unspent after a block was unspent before, or the block made it |
| CoinOrigins.ConnectFits | src/core/main.cpp:1904-1918 | the inputs of a connected block are outputs of the transactions they name, and its undo records hold outputs |
| CoinOrigins.DisconnectFits | src/core/main.cpp:2095-2177 | after a rollback that is reported clean, exact or not, what was unspent still is or a transaction of the block makes it |
| PoolAndChain.ResurrectAdds | src/core/main.cpp:2857-2866 | a transaction that comes back feeds those that wait for it |
| PoolAndChain.ResurrectDrops | src/core/main.cpp:2857-2866 | one that does not come back takes along all that wait for it |
| PoolAndChain.ResurrectsKeeps | src/core/main.cpp:2857-2866 | after every turn of the loop the pool is valid, and each input is available or made by a block transaction still to come |
| PoolRun.ConnectedKeepsInv | src/core/main.cpp:2917-2943 | after ConnectTip the pool is consistent with the new coin set, also when the block overwrites coins |
| PoolRun.DisconnectedKeepsInv | src/core/main.cpp:2815-2876 | after DisconnectTip, which goes on only from a clean rollback, the pool is consistent with the coin set that was rolled back, exact or not |
| PoolRun.RunKeepsInv | src/chain/txmempool.cpp:827-898 | over every run of accepts, removals, connected blocks and disconnected tips: mapTx and mapNextTx stay inverse, the size and the spent index right, and every input is an output of a pool transaction or an unspent coin |
| PoolRun.PoolCanAlwaysBeReplayed | src/chain/txmempool.cpp:871-886 | in every state of every run the whole pool can be applied to the coin set in some order |
| PoolReplay.ReplayWorks | src/chain/txmempool.cpp:863-886 | applying pool transactions after their parents, in any such order, finds every input: the assertions of the loop cannot fail |
| PoolReplay.Complete | src/chain/txmempool.cpp:871-886 | every order of dependence over part of the pool can be completed, so the loop always finds a next one |
| PoolReplay.PoolCanBeReplayed | src/chain/txmempool.cpp:871-886 | a pool that is consistent with a coin set can be applied to it |
| TxMemPool.TxMemPool.constructor | src/chain/txmempool.cpp:816-825 | a new pool is empty and valid |
| TxMemPool.TxMemPool.AddUnchecked | src/chain/txmempool.cpp:472-498 | maps and counter after the loop, with no assumption on the entry |
| TxMemPool.TxMemPool.AddSpentIndex | src/chain/txmempool.cpp:573-607 | the spent index after the loop, existing entries kept |
| TxMemPool.TxMemPool.Accept | src/core/main.cpp:1254-1317 | accepts exactly if the txid is new, no input is taken, all are available and the other checks pass; the pool stays valid |
| TxMemPool.TxMemPool.RemoveSpentIndex | src/chain/txmempool.cpp:622-636 | exactly the entries of the transaction go |
| TxMemPool.TxMemPool.Erase | src/chain/txmempool.cpp:724-744 | what one turn of the loop erases |
| TxMemPool.TxMemPool.Remove | src/chain/txmempool.cpp:690-747 | terminates; exactly the transaction and all its in-pool descendants go, each listed once, also when it is not in the pool itself |
| TxMemPool.TxMemPool.RemoveConflicts | src/chain/txmempool.cpp:774-789 | exactly the other spenders of its inputs go, with all their descendants |
| TxMemPool.TxMemPool.RemoveForBlock | src/chain/txmempool.cpp:794-813 | no pool transaction is left that is in the block or spends what the block spent; no orphan is left and nothing else is lost |
| TxMemPool.TxMemPool.TryAgain | src/core/main.cpp:2859-2865 | one turn: added exactly if it is no coinbase and is accepted, else exactly it and its descendants go |
| TxMemPool.TxMemPool.Resurrect | src/core/main.cpp:2857-2866 | the loop of DisconnectTip takes such a turn for each transaction of the block, in order |
| SkipHeight.LowestOneIsTakenOut | src/core/main.cpp:4496-4497 | n & (n - 1) takes out the lowest bit that is set |
| SkipHeight.SkipGoesBack | src/core/main.cpp:4499-4508 | the skip height of n is in [0, n) for n at least 1 |
| SkipSteps.LowestBitIff | src/core/main.cpp:4496-4497 | bit k is the lowest that is set if and only if the number is an odd multiple of 2^k |
| SkipSteps.SkipOfEven | src/core/main.cpp:4499-4508 | an even height skips to what is left without its lowest bit |
| SkipSteps.SkipOfOdd | src/core/main.cpp:4499-4508 | an odd height skips to one more than the height below leaves without its two lowest bits |
| SkipSteps.EvenFall | src/core/main.cpp:4510-4532 | from a height with lowest bit k to one less than 2^k below, the walk takes at most Longest(k) steps |
| SkipSteps.LongestIs | src/core/main.cpp:4504-4506 | Longest in closed form, about a quarter of the square |
| SkipSteps.StepsAreFew | src/core/main.cpp:4504-4532 | from a height of b bits no walk takes more than b - 4 + Longest(b - 1) steps |
| SkipSteps.SlidesLong | src/core/main.cpp:4504-4532 | no bound is smaller: from 2^b - 8 to 2 it takes that many |
| SkipSteps.AtMost110 | src/core/main.cpp:4504-4506 | at most 110 steps from any height up to 2^18, as the comment says |
| SkipSteps.Takes110 | src/core/main.cpp:4504-4506 | from 2^18 - 8 to 2 it takes 110 |
| BlockTree.SkipLeadsBack | src/core/main.cpp:4510-4532 | above genesis the skip pointer is not null, leads strictly back and can be followed to any height at or below it |
| BlockTree.GetAncestor | src/core/main.cpp:4510-4532 | the loop terminates and gives what walking predecessors down to the height gives, null outside the range; and how many steps it takes |
| BlockTree.WithBlockIsTree | src/core/main.cpp:4539-4543 | a tree stays one when a block is appended with BuildSkip |
| BlockTree.BlockIndex.Add | src/core/main.cpp:3827-3850 | the new block has its height and the skip pointer of BuildSkip |
| BlockTree.LastCommonAncestor | src/core/main.cpp:599-616 | the final assertion holds, and the result is the highest block that both have |
| ChainPath.Chain.SetTip | src/chain/chain.cpp:14-24 | although the loop stops early, the array is exactly the path to the new tip |
| ChainPath.ContainsAncestors | src/chain/chain.h:426-429 | Contains holds exactly for the tip and its ancestors |
| ChainPath.NextIsChild | src/chain/chain.h:431-437 | Next gives the child in the chain, and null for the tip |
| ChainPath.ChainStays | src/chain/chain.cpp:14-24 | a chain stays a path while the tree grows |
| ChainPath.Chain.FindFork | src/chain/chain.cpp:54-60 | gives the highest block on the way that is in the chain, never null for a shared genesis |
| Locator.GetLocator | src/chain/chain.cpp:26-52 | entry k lies k blocks back up to 11, then 2^(k - 10) + 9, cut off at genesis, where the list ends |
| Locator.LocatorGoesDown | src/chain/chain.cpp:26-52 | the entries are ancestors at strictly decreasing heights |
| Locator.LocatorEnds | src/chain/chain.cpp:26-52 | the list starts with the block and ends in genesis |
| Locator.LocatorIsShort | src/chain/chain.cpp:26-52 | it has at most 11 + m entries for every m with height <= 2^m |
| Locator.FindForkInGlobalIndex | src/core/main.cpp:758-771 | gives the first entry that is known and in the chain, else the genesis block of the chain |
| Locator.LocatorFindsFork | src/core/main.cpp:758-771 | the block found is common to both and at most twice as far back as the fork; up to 11 blocks back it is the fork |
| BlockBodies.LinkingGoesOn | src/core/main.cpp:3883-3900 | one turn of the queue links its front, moves the waiting children and keeps the invariant |
| BlockBodies.LinkingEnds | src/chain/chain.h:128-131 | with an empty queue nChainTx is the sum along the path if all bodies are there, else 0, and exactly the blocks with a body but no link wait |
| BlockBodies.Bodies.AddHeader | src/core/main.cpp:3827-3859 | a new header keeps all counts right |
| BlockBodies.Bodies.Receive | src/core/main.cpp:3863-3908 | in whatever order bodies arrive, the queue terminates and all counts and waiting lists are right |
| MedianTime.SortSorts | src/chain/chain.h:267-268 | sorting orders the times and keeps the number below every bound |
| MedianTime.MedianByCounting | src/chain/chain.h:267-268 | the median is at least m exactly when at most half of the times are below m |
| MedianTime.GetMedianTimePast | src/chain/chain.h:257-269 | the loop fills the window of the last 11 blocks, or of all, and gives its median |
| MedianTime.MedianNeverDecreases | src/core/main.cpp:4179-4182 | along every chain whose blocks are later than the median before them, the median never decreases |
| Uint256.Divide | src/structs/uint256.cpp:90-114 | shifting and subtracting gives the integer quotient; it fails exactly for a zero divisor |
| Uint256.Aligned | src/structs/uint256.cpp:102-103 | the aligned divisor loses no bit, and its double exceeds the number |
| Compact.DecodeEncode | src/structs/uint256.cpp:255-296 | decoding an encoded target drops its low bytes and nothing else; sign and overflow flags stay clear |
| Compact.Decodes | src/structs/uint256.cpp:255-273 | the value is the mantissa times 256^(size - 3), rounded down; overflow is set if and only if that does not fit, and the sign if and only if it is given and something is left |
| Compact.KeptIsClose | src/structs/uint256.cpp:275-296 | encoding never raises a target and loses at most one part in 2^15 |
| Compact.EncodeKept | src/structs/uint256.cpp:275-296 | the decoded target encodes to the same compact form |
| Compact.DecodedIsNotFull | src/structs/uint256.cpp:255-273 | no compact form stands for the largest number, so target + 1 never wraps |
| Pow.GetBlockProof | src/chain/pow.cpp:502-515 | the proof is the integer part of 2^256 / (target + 1), or 0 for a negative, overflowing or zero target |
| Pow.TargetIsLargest | src/chain/pow.cpp:159-161 | the target computed from work w is the largest one whose proof is at least w |
| Pow.TargetForIsTarget | src/chain/pow.cpp:159-161 | the modular expression -w / w is that target for every w above 0 |
| Pow.SdaGrows | src/chain/pow.cpp:53-95 | the slower the last six blocks the larger the part of the window's time, negative or not, that is added, at most half; none below ten minutes each |
| Pow.SdaShares | src/chain/pow.cpp:53-95 | the added time without rounding: from when on there is some, and an eighth, a quarter or a half by the time of the last six blocks |
| Pow.TimespanGrows | src/chain/pow.cpp:101-157 | slower last blocks never shorten the time that is used |
| Pow.MoreTimeCanGiveLess | src/chain/pow.cpp:75-78 | a longer window can: one second more takes the adjustment away |
| Pow.TimespanGrowsWithTime | src/chain/pow.cpp:75-78 | more time gives no less while the window stays faster than the last blocks, or without an adjustment before |
| Pow.MoreTimeGivesNoLessIff | src/chain/pow.cpp:53-157 | no shorter window uses more time than one of b seconds, if and only if the adjustment is off at the height, the last blocks were fast, the window is faster than they were, or its clamped time makes up for that of the edge with its share |
| Pow.ClampedGrows | src/chain/pow.cpp:123-157 | the clamps keep order, so slower blocks never raise the work, and bound the time |
| Pow.ClampedSteps | src/chain/pow.cpp:123-157 | which times stay, and which are cut to four, five, six or eight times the full time or to the lower bound |
| Pow.WorkAskedTimes | src/chain/pow.cpp:106-158 | the work asked times the time used is the work of the window at the target spacing, up to the rest of one division |
| Pow.GetTargetPow | src/chain/pow.cpp:101-162 | the clamps, both divisions and the negation give the target for the work asked, and fail exactly when that work is zero |
| Pow.WorkIsBounded | src/chain/pow.cpp:101-162 | if work times spacing fits, the work asked lies between an eighth (a sixth without the short-range adjustment) and four times the average of the window, up to integer division |
| Pow.WorkIsBoundedIff | src/chain/pow.cpp:101-162 | it does so for all times and adjustments if and only if work times spacing fits or the work is below six times the number of blocks |
| Pow.WrappedWorkIsLost | src/chain/pow.cpp:106-107 | otherwise a window that took six times too long breaks the lower bound |
| Pow.NextIsWithinLimit | src/chain/pow.cpp:164-252 | for every limit and through all height switches, when the previous bits pass the range check the next ones do if and only if they do not come from a zero: the computed target, or the previous one scaled modulo 2^256 |
| Pow.SmallLimitIsKept | src/chain/pow.cpp:164-252 | under a limit below 2^255 that is a computed target of zero, or a previous target of 2^254 at the switch by 100 |
| Pow.ScaledTargetCanFail | src/chain/pow.cpp:164-180 | a concrete block at that switch whose bits pass while the next ones fail |
| Pow.BitsByHeight | src/chain/pow.cpp:164-252 | by height: the bits stay in two stretches, come from 100 or 10 times the previous target at the block before each of the two heights, and else from the computed target, never from more than the limit |
| Pow.BitsStayIff | src/chain/pow.cpp:204-240 | whatever the inputs are the bits stay, at the heights of the two stretches and at no others |
| Pow.NextBitsKeepWork | src/chain/pow.cpp:181-252 | everywhere else but at the two heights a block that meets the next bits proves at least the work asked for |
| Pow.EncodedWithinLimit | src/chain/pow.cpp:452-466 | a target cut to the limit and encoded passes the range check if and only if it is not zero |
| Pow.TargetIsZero | src/chain/pow.cpp:159-161 | the computed target is zero if and only if the work asked is above 2^255 |
| Pow.EncodedTargetKeepsWork | src/chain/pow.cpp:164-252 | a block that meets the encoded target proves at least the work asked for |
| Epow.GetNodeFactor | src/chain/epow.cpp:595-641 | the number of different miners of the last blocks, genesis left out |
| Epow.GetMiningDepth | src/chain/epow.cpp:702-733 | how far back the miner's last block lies, as far as the search goes |
| Epow.FirstWindowIsExactly | src/chain/epow.cpp:509-529 | the first version: seven tenths of the miners above its largest height, less than all below it, one for three miners or more once the second version starts |
| Epow.WindowByMiners | src/chain/epow.cpp:779-830 | the second version, whatever the floating point gives: none for fewer than 7 or more than 59 miners, one for 15 to 59, one or two for 7 to 14; only after a slow time less |
| Epow.WindowIsExactly | src/chain/epow.cpp:798-830 | with seven tenths for the rate: exactly 0, 1 or 2, by the number of miners and the two times |
| Epow.Window.GetBlockWindowSize | src/chain/epow.cpp:473-538 | a touched window is computed anew and stored, an untouched one is returned |
| Epow.Window.CalculateWindowSize | src/chain/epow.cpp:772-830 | the same for the second version, for every depth the chain is high enough for; it divides by zero exactly when the factor it goes on with is zero |
| Epow.WindowIsFair | src/chain/epow.cpp:473-538 | whichever of the two functions has filled the store, the window in use is below the number of different miners of the last 480 blocks, or shuts out no one |
| Epow.Window.CheckBlockWindow | src/chain/epow.cpp:399-442 | with the window stored or computed anew: accepts exactly the miners of none of the blocks in it; the limit of 700 blocks does not matter; the window is one of this chain if what was stored is |
| Epow.StaleWindowShutsOutAll | src/chain/epow.cpp:772-777 | a window of two, computed and stored for a chain by seven miners, refuses every recent miner of a chain by one |
| Epow.LateWindowIff | src/chain/epow.cpp:475-482 | a window stored for the chain without its last block leaves a recent miner free, unless its blocks are all by different miners and there are no others |
| Epow.SomeoneMayMine | src/chain/epow.cpp:595-641 | a window below the number of different miners leaves one of them free |
| Epow.SomeoneMayMineIff | src/chain/epow.cpp:595-641 | any window, stored for this chain or not, leaves a recent miner free if and only if it holds fewer different miners than there are |
| Epow.NeverStuck | src/chain/epow.cpp:399-442 | whichever window is in use each time, every chain with a known recent miner can be continued for any number of blocks, each passing the check, by miners it already has |
| Epow.MinersPause | src/chain/epow.cpp:399-442 | on a chain of blocks that passed, no miner has two blocks within the window that applied, whatever it was |
| Epow.LastMinerIsRefused | src/chain/epow.cpp:399-442 | the miner of the tip is shut out when 7 to 59 miners made the last 120 blocks in normal time |
| Epow.MinersTakeTurns | src/chain/epow.cpp:399-442 | so over chains that passed, no such miner has two blocks in a row, and with fewer than 15 miners not two of three |

## Left out

- Networking, RPC, wallet, start-up, logging and disk files: plumbing around the modelled parts.
- Script evaluation, signatures, permissions and assets: they are verdicts that come in from outside; a script carries its indexed address and whether it can be spent.
- Fixed-width wrap-around of 64-bit amounts, 32-bit counters and the 32-bit `lfactor` in `GetTargetPow`: amounts, counters and times are unbounded integers. The 256-bit arithmetic wraps as in the source.
- The 32-bit limbs inside `uint256`, its multiplication, and the compact form of negative numbers: numbers are values below 2^256.
- The layers of the coins cache and their dirty and fresh flags: the coin set is what can be seen through the view.
- The serialized form of undo records: the version is restored together with the height.
- The spent index of the chain: `DisconnectBlock` collects its entries and never writes them (src/core/main.cpp:2227-2236).
- The block height inside a restored entry of the unspent index: it is 0 unless the output was the last one (src/core/main.cpp:2195, 2205), so the index is compared on keys, amounts and scripts.
- Size limits and the length of the coinbase script in `CheckTransaction`; the script and permission checks in `CheckInputs`.
- A tip that has overwritten coins is not disconnected in the runs of `ChainRun`: its rollback is not exact, as stated above.
- What is left after a rollback that is not clean: `DisconnectTip` stops with an error, but the address indexes have been changed by then (src/core/main.cpp:2227-2236).
- The address index, fees, priorities, hash list and `clear()` of the memory pool; `removeCoinbaseSpends` is a sequence of recursive removals.
- The value and script checks that `CTxMemPool::check` repeats while it replays the pool: that the inputs are there is modelled.
- Aliasing of references into the pool's own maps: transactions are values keyed by txid.
- The shutdown flag of the check queue, which nothing sets, and thread interruption.
- Failed-block flags, candidate sets, `FindMostWorkChain`, `InvalidateBlock` and `ReconsiderBlock`.
- `GetBTCWorkRequired`, `GetSDAWorkRequired` and the test network rules: the same clamp, multiply and divide on one input each.
- A stored window that is used after the tip has changed: `BLOCKWINDOW_TOUCHED` is set outside the lock and before the new tip is activated (src/core/main.cpp:4648), so a check in between can store the window of the old chain. The verdict is stated for it too, and when it leaves someone free.
- The mining blackout and the timing rules of the second ePoW version.
- The kind of block whose coinbase is hashed without its outputs that cannot be spent (src/primitives/block.cpp:145-155): the leaves of the block tree come in.
- The rounds of SHA-256, HMAC and PBKDF2.
- PartialMerkle.MatchesAreSound: asks for a root other than 0, the value that `ExtractMatches` returns on failure.
- BlockBodies.Bodies.Receive: a body arrives once per block and holds at least one transaction, which its caller makes sure of.
- Pow.GetTargetPow: the times and works of the ancestors that it looks up come in as arguments.
