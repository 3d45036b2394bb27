# A verified model of the node's state machines

The repository is a proof-of-stake coin node. This project models, in Dafny 4.11, the parts of it that
keep state and whose correctness is not visible in one function, and proves what they keep and what
they promise. `dafny verify dfyconfig.toml` checks all of it.

Hashes, signatures, disk and database are opaque throughout. A transaction or a block carries its own
hash, script verification is an arbitrary predicate, the block files and the database are maps, and a
database transaction is begun, committed or aborted. Where a result needs hashes to be free of
collisions, its statement says so.

## How the model is laid out

| file | models |
|---|---|
| Transactions, Ledger, Money | transactions, the spent-output index, fetching, spending and giving back inputs; that disconnecting inverts connecting; that ids do not repeat; the value of what is unspent |
| Blocks, BlockConnection, Supply | CheckBlock, ConnectBlock, DisconnectBlock and the rewards; what one block does to the money supply |
| BlockTree, CoinbaseHeight, Chain | the tree of block indexes; the height rule; the class ChainState with Reorganize, SetBestChain, AcceptBlock and FindBlockByHeight |
| Maturity | what the inputs of a connected block are, on its branch: nothing young among them |
| StalledChain | a run into a state whose tip is not connected |
| Checkpoints | the synchronized-checkpoint protocol, a class over ChainState, and its safety over whole runs |
| AddrTables, AddrGroups, AddrMan, AddrCheck, AddrFile | the address manager: the tables and what it means for them to agree, how much of them one address range can take, the class CAddrMan, its own consistency check, and peers.dat written and read back |
| MemPool, Miner, MinedBlock | the memory pool with recursive removal, block assembly, and that what is assembled connects |
| Merkle, Locator, StakeModifier | the Merkle tree, the block locator, the selection of the stake modifier |
| BigNum, Compact, Retarget, Base58 | sign-and-magnitude bytes, compact targets, the next target, base 58 |
| Framing, LockedPages | message framing on both sides, page-lock counting |
| Basics | definitions several modules share |

Classes keep the fields the source updates in place. A pointer to a block index is the hash of the
block; a pointer to a pool transaction is its hash. The fields of a block index that change after the
block is in the tree (the forward link, the mint, the supply) are maps of ChainState, so that the tree
itself only grows. Randomness is a nondeterministic choice. What can fail in a call through no fault of a
block is an input: an `Io` says which blocks can be read and which commits go well, so that every
operation of the chain and of the checkpoints states exactly when it succeeds.

`ChainState.Valid` is the state property of the chain: the tree is well formed, the database index is
the one got by connecting exactly the blocks from genesis to the tip, the forward links form exactly
that path, the recorded supply of every block on it is the value of what was unspent after it, and the
cached pointer of the height lookup is on it. `SyncCheckpoints.Step` and `Run` are the runs of the
checkpoint protocol, and `SyncCheckpoints.Perform` shows that calls of the class make such runs.
`CAddrMan.Valid` is the agreement of the five tables.

Where the code and a stated promise part, the code is modelled and the exact condition is proved:

- A proof-of-work block may contain coinstakes, because the duplicate-coinstake check of CheckBlock is
  reached only for proof-of-stake blocks (src/main.cpp:2084-2104). Supply.WorkEmissionBound gives the
  exact condition for the work subsidy to bound what such a block mints, and
  Supply.WorkBoundNeedsNoCoinStake a block that exceeds it.
- From a previous target of 1, GetNextTargetRequiredV2 is not monotone in the spacing
  (src/main.cpp:1111-1115): the target rounds to zero and is replaced by the limit.
  Retarget.NextTargetMonotone gives the exact condition, Retarget.TargetOneJumps the case.
- SetBestChain moves the tip even when a postponed block could not be connected
  (src/main.cpp:1839-1872). The tip is then the new block, while the database, the links and the
  records stand at `conn`. The state is whole exactly when `conn` is the new tip, and Reaches says
  exactly when that is; StalledChain.Stall is a run in which it is not.
- The comment in SelectTried promises the least recently tried of a few entries; the position it
  returns is the one the entry was drawn from (src/addrman.cpp:136-143), and holds that entry exactly
  when it was drawn from its own place. AddrMan.SelectTriedMisses is a case where it was not.
- Odd Merkle levels repeat their last node, so a repeated last transaction is invisible in the root;
  roots determine lists among those without duplicates.

## Model

| member | source | states |
|---|---|---|
| Transactions.FetchInputs | src/main.cpp:1241-1314 | Fetching succeeds exactly when every previous transaction can be found (test pool first in block and miner mode, memory pool only outside them) and has the claimed output; the fetched map holds those transactions and no others; fInvalid marks exactly the out-of-range case. |
| Transactions.CheckInputs | src/main.cpp:1365-1394 | The inexpensive tests pass exactly when every input exists, is mature, is not from the future and is worth an amount in range, with the total in range too. |
| Transactions.IsMature | src/main.cpp:1379-1383 | The walk over the last nCoinbaseMaturity blocks rejects exactly a coinbase or coinstake stored in one of them. |
| Transactions.SequentialTestIsSpendable | src/main.cpp:1398-1431 | The double-spend test, which sees its own earlier marks, passes for all inputs exactly when they are pairwise different and all unspent to begin with. |
| Transactions.ConnectInputs | src/main.cpp:1358-1454 | Exact success condition (maturity, times, ranges, no double spend, signatures, fee), and in block or miner mode the index seen through the test pool has exactly the inputs marked. On success, in fields: input i claims an existing output in range of a transaction that is not newer, its own signature check passes unless the block lies before the last built-in checkpoint, and an ordinary transaction takes in at least 10000 more than it pays out. |
| Transactions.ConnectableIsRightful | src/main.cpp:1365-1444 | What the success condition of ConnectInputs means for each input and for the fee, in fields. |
| Transactions.BlockFee | src/main.cpp:515-542 | The fee for a block of n bytes: 10000 below 250000, then rising as the room to 500000 shrinks, all the money from there; it never falls as the block grows. |
| Transactions.DisconnectInputs | src/main.cpp:1205-1238 | Succeeds exactly when every input is indexed; the result is the index with the inputs given back and the transaction erased. |
| Transactions.UndoTxInvertsApplyTx | src/main.cpp:1205-1238 | Disconnecting a transaction restores the index from before it was connected, even after entries it does not use have gone. |
| Ledger.DisconnectUndoesConnect | src/main.cpp:1506-1511 | Disconnecting the transactions of a connected block in reverse order always succeeds and gives back the old index, exactly if the ids were new; in every case the set of unspent outputs is the old one, also when a fully spent entry was overwritten. |
| Ledger.StaysSpent | src/main.cpp:1405-1431 | An output taken along a history stays taken as long as ids do not repeat. |
| Ledger.NoIdRepeats | src/main.cpp:1555-1572 | Along any history from an empty index, faithful hashes and pairwise different coinbases imply that no transaction id occurs twice. |
| Money.TotalApplyTx | src/main.cpp:1598-1611 | Connecting a transaction moves the value of everything unspent by its outputs minus its inputs. |
| Money.TotalMarkAll | src/main.cpp:1423-1430 | Marking the inputs of a transaction takes exactly their value out of the unspent total. |
| Blocks.CheckTransaction | src/main.cpp:464-513 | Accepts exactly non-empty, in-range transactions without duplicate inputs, with the coinbase script bounds or without null inputs. |
| Blocks.CheckDistinctTxids | src/main.cpp:2117-2125 | The set of ids is as large as the block exactly when no id occurs twice. |
| Blocks.CheckStakeShape | src/main.cpp:2084-2104 | For a proof-of-stake block: empty coinbase output, second transaction the only coinstake, same time. |
| Blocks.CheckBlock | src/main.cpp:2056-2141 | Exact acceptance condition for a block without context (coinbase place, stake shape, transactions, duplicate ids, signature operations). |
| Blocks.KindsInBlock | src/main.h:525-534 | In a block that passes, the first transaction alone spends nothing, and the block is proof of stake exactly when the first output of its second transaction is empty. |
| Blocks.SubsidiesAre | src/main.cpp:969-1007 | The work subsidy and the stake subsidy in numbers. |
| Blocks.GetCoinAge | src/main.cpp:1920-1955 | The coin age is the sum over the readable inputs of value times age, in hundredths of a coin and seconds, turned into coin days; the loop fails exactly when some input is younger than the indexed transaction it spends. |
| BlockConnection.ConnectTransactions | src/main.cpp:1551-1612 | The loop over the transactions accepts exactly those blocks each of whose transactions is acceptable where it stands, and leaves the index, the totals and the positions that follow from replaying them. |
| BlockConnection.ConnectBlock | src/main.cpp:1530-1667 | Succeeds exactly when the block is connectable (CheckBlock, no unspent id overwritten, all inputs spendable in order, limits, reward); on success index and totals are those of the block replayed. |
| BlockConnection.DisconnectBlock | src/main.cpp:1506-1511 | Undoes the transactions from the last to the first; fails exactly where an input is not indexed. |
| BlockConnection.AcceptedIsSound | src/main.cpp:1551-1612 | Every block ConnectBlock accepts meets the conditions under which disconnecting inverts connecting: each input unspent when its turn comes, overwritten ids fully spent, positions real. |
| Supply.SupplyMoves | src/main.cpp:1636-1638 | A connected block changes the value of all unspent outputs by exactly the amount added to nMoneySupply. |
| Supply.FeesCancel | src/main.cpp:1583-1605 | Beyond the coinbase and the coinstakes a block creates nothing: what transactions leave as fees is what the coinbase may take. |
| Supply.BlockSpendsRightfully | src/main.cpp:1551-1612 | Every input of every transaction of an accepted block claims an unspent output in range of a transaction on disk that is not newer and not a coinbase or coinstake of one of the recent blocks, with its own signature check passed after the last built-in checkpoint; an ordinary transaction pays at least 10000. |
| Supply.StakeEmissionBound | src/main.cpp:1623-1634 | A proof-of-stake block raises the supply by at most the stake subsidy for its coin age. |
| Supply.WorkEmissionBound | src/main.cpp:1614-1622 | A proof-of-work block raises the supply by at most the work subsidy plus what its coinstakes mint; it stays within the subsidy exactly when they mint no more than its coinbase leaves unclaimed of subsidy and fees, and so if there are none. |
| Supply.WorkBoundNeedsNoCoinStake | src/main.cpp:2084-2102 | A concrete proof-of-work block with a coinstake as third transaction passes CheckBlock, the height rule and ConnectBlock and exceeds the work subsidy: the duplicate-coinstake check only looks at proof-of-stake blocks. |
| BlockTree.FindFork | src/main.cpp:1673-1685 | The search in Reorganize ends at the highest common ancestor of the two tips. |
| BlockTree.BranchHistory | src/main.cpp:1551-1612 | The index of a branch of connectable blocks is the replay of all its transactions from nothing. |
| BlockTree.BlockIdsAreNew | src/main.cpp:1555-1572 | On a sound branch without hash collisions no id of a block is already in the index it connects to. |
| BlockTree.DisconnectStepsBack | src/main.cpp:1701-1715 | Disconnecting the tip of a sound branch gives exactly the index of its parent. |
| BlockTree.OnActiveBranch | src/main.h:1227-1230 | IsInMainChain (a forward link, or being the tip) is being an ancestor of the tip, when the links are those of the tip. |
| CoinbaseHeight.PushIsPrefixFree | src/main.cpp:2187-2191 | No script starts with the serialized heights of two different blocks. |
| CoinbaseHeight.PushIntIs | src/script.h:242-254 | Apart from 1 to 16 a pushed number is its length and its bytes, lowest first, without a byte that could be left out and with the sign bit clear. |
| CoinbaseHeight.HeightRuleSeparates | src/main.cpp:2187-2191 | The height rule makes the coinbases of a branch pairwise different, the hypothesis of Ledger.NoIdRepeats. |
| Chain.ChainState.ConnectBlockAt | src/main.cpp:1530-1667 | ConnectBlock inside the open database transaction, with the recent blocks of the branch; mint and supply of the block are recorded from its totals. |
| Chain.RecentBlocksAre | src/main.cpp:1379-1383 | The walk back from a block collects the places of exactly those ancestors that are fewer than n blocks below it. |
| Maturity.NothingYoungIsSpent | src/main.cpp:1379-1383 | A block that connects spends no coinbase and no coinstake of an ancestor, or of itself, fewer than nCoinbaseMaturity blocks below it. |
| Maturity.ConnectedIsRightful | src/main.cpp:1358-1454 | Every input of a block that connects claims an unspent output of a transaction on its branch that is not newer, with its signature checked from the height of the last built-in checkpoint on. |
| Chain.ChainState.DisconnectBranch | src/main.cpp:1701-1715 | Disconnecting the old branch down to the fork leaves the index of the fork, and fails exactly when a block of it cannot be read. |
| Chain.ChainState.ConnectBranch | src/main.cpp:1717-1734 | Connecting the new branch gives the index and the supplies of its tip, and succeeds exactly when each block can be read and connects. |
| Chain.ChainState.Unlink | src/main.cpp:1742-1745 | The forward links of the old branch come off down to the fork. |
| Chain.ChainState.Relink | src/main.cpp:1747-1750 | The forward links go up from the fork to the new tip, and no others exist. |
| Chain.ChainState.Reorganize | src/main.cpp:1669-1765 | From the old tip to the new: pfork is the highest common ancestor; on success the committed index is the one got by connecting exactly the blocks from genesis to the new tip and the links form exactly that path; on failure committed index and links are untouched; success is equivalent to every new block connecting, every block of either side being readable, and the commit. |
| Chain.ChainState.SetBestChainInner | src/main.cpp:1769-1791 | Attaches one block on top of the chain the database stands at, or changes nothing committed. |
| Chain.FindIntermediate | src/main.cpp:1814-1826 | The walk back stops at the first block whose parent is not more trusted than the tip, and lists the blocks walked over, each with a more trusted parent. |
| Chain.ChainState.ConnectSecondary | src/main.cpp:1839-1855 | The postponed blocks are connected one by one; the last is reached exactly when each can be read, connects and is committed, and else the block after the last one reached cannot. |
| Chain.ChainState.SetBestChain | src/main.cpp:1793-1872 | On success the tip is the new block, and the state is whole exactly when the last postponed block was connected; on failure the old state stands. Success, and reaching the new block whole, are each characterized exactly by which blocks connect and which reads and commits go well; where it stops early the next block is one that cannot be attached. |
| StalledChain.Stall | src/main.cpp:1839-1872 | A run from genesis, by AcceptBlock alone, into a state whose tip is a block that is not connected: one commit fails, and the block postponed afterwards does not connect. |
| Chain.ChainState.StoreBlock | src/main.cpp:1979-2030 | A block enters files and tree without disturbing the state of the active branch. |
| Chain.ChainState.AddToBlockIndex | src/main.cpp:1979-2030 | The block enters the tree, and a more trusted branch is switched to as SetBestChain says. |
| Chain.ChainState.AcceptBlock | src/main.cpp:2143-2217 | A block is stored exactly when nothing refuses it; the tip moves only to a more trusted branch, and then with the conclusions of SetBestChain. |
| Chain.ChainState.FindBlockByHeight | src/main.cpp:919-935 | Starting from genesis, the tip or the cached pointer, the walk returns the block of that height on the active branch, and the cache stays on it. |
| Chain.LinksUp | src/main.cpp:931-932 | The forward link of an ancestor of the tip leads to the next block of the path. |
| Chain.BranchAt | src/main.cpp:919-935 | The path from genesis to a block has one block for every height. |
| Chain.NewBlocks | src/main.cpp:1814-1855 | The blocks new to the tip are those up to the intermediate block and the postponed ones, without overlap with the old branch. |
| Checkpoints.TraceBack | src/checkpoints.cpp:105-137 | The walk down to a height ends at x exactly when x is an ancestor. |
| Checkpoints.SyncCheckpoints.ValidateSyncCheckpoint | src/checkpoints.cpp:93-140 | True exactly for a strict descendant of the current checkpoint; a block on another branch, and only that, is remembered as invalid. |
| Checkpoints.SyncCheckpoints.CheckSync | src/checkpoints.cpp:219-254 | Exact condition by height; for an unknown block it is that the parent descends from the checkpoint or is it. |
| Checkpoints.SyncCheckpoints.Advance | src/checkpoints.cpp:170-187 | The checkpoint branch becomes active before the checkpoint becomes current; it does exactly when the branch is active already or the read and SetBestChain succeed, and the write does; the state stays whole exactly unless a postponed reconnect stops early. |
| Checkpoints.SyncCheckpoints.AcceptPendingSyncCheckpoint | src/checkpoints.cpp:159-204 | A pending checkpoint that has arrived is taken exactly if it strictly descends from the current one and Advance succeeds, and dropped exactly if it does not descend; tip, checkpoint and wholeness are given exactly, and the state stays safe. |
| Checkpoints.SyncCheckpoints.ProcessSyncCheckpoint | src/checkpoints.cpp:413-467 | A signed checkpoint is kept pending if unknown, taken exactly if it strictly descends from the current one and Advance succeeds, ignored otherwise; the state stays safe. |
| Checkpoints.SyncCheckpoints.AcceptBlock | src/main.cpp:2143-2217 | With the STRICT checkpoint rule a new block is stored exactly when nothing else refuses it and its parent descends from the checkpoint in force; its result, the tip, the checkpoints and whether the state stays whole are given exactly; every call is a Step and leaves a Safe state. |
| Checkpoints.CheckpointsDescend | src/checkpoints.cpp:93-140 | In every run the checkpoint only moves to descendants: heights never fall, and equal heights mean the same checkpoint. |
| Checkpoints.CheckpointsHold | src/checkpoints.cpp:219-254 | In every run each block accepted while a checkpoint was in force, or later, descends from it. |
| Checkpoints.TipsDescend | src/checkpoints.cpp:413-467 | In every run every later tip descends from every earlier checkpoint. |
| Checkpoints.SyncCheckpoints.Perform | src/checkpoints.cpp:93-204 | Whatever sequence of blocks, checkpoint messages and retries arrives, the calls form a Run up to the first early stop: checkpoints only move to strict descendants, every later tip descends from every earlier checkpoint, and so does every block entered while it was in force or later. |
| Checkpoints.SyncCheckpoints.PerformOne | src/main.cpp:2143-2217 | One operation, a block passing CheckBlock first and going to some free place of the block files: a Step between Safe states. |
| AddrMan.CAddrMan.constructor | src/addrman.h:382-390 | An empty address manager is consistent. |
| AddrMan.CAddrMan.Find | src/addrman.cpp:81-92 | Finds exactly the entry of the address. |
| AddrMan.CAddrMan.Create | src/addrman.cpp:94-104 | Appends an entry under a fresh id and keeps mapInfo, mapAddr and vRandom inverse to one another. |
| AddrMan.CAddrMan.SwapRandom | src/addrman.cpp:106-124 | Exchanges two places of vRandom and changes nothing but positions. |
| AddrMan.CAddrMan.SelectTried | src/addrman.cpp:126-148 | Returns the position from which the least recently tried of the entries drawn was taken, and says where that entry is now; the position still holds it exactly when it was drawn from its own place. |
| AddrMan.SelectTriedMisses | src/addrman.cpp:128-147 | A bucket of two and two draws after which the position returned holds the other entry. |
| AddrMan.CAddrMan.ShrinkNew | src/addrman.cpp:150-202 | Removes one reference: the first entry of the bucket that may be forgotten (not tried in the last minute, and from the future, unseen for a month, silent after three tries or failed ten times in a week) if there is one, else the oldest, and first among the oldest, of the entries at four positions of the bucket in order; the entry disappears exactly with its last reference, and everything stays consistent. |
| AddrMan.CAddrMan.Release | src/addrman.cpp:162-170 | One reference is dropped, and the entry with all its index places if it was the last. |
| AddrMan.CAddrMan.FirstTerrible | src/addrman.cpp:155-173 | The scan finds the deletable entry with the least id, or shows that there is none. |
| AddrMan.CAddrMan.OldestOfFour | src/addrman.cpp:175-189 | Of the entries at four random positions of the bucket in order the oldest is chosen, the first among equally old ones. |
| AddrMan.CAddrMan.MakeTried | src/addrman.cpp:204-260 | The entry leaves every "new" bucket for its tried bucket; exactly when that is full one of its entries returns to a "new" bucket; no entry is lost and every table agrees. |
| AddrMan.CAddrMan.Evict | src/addrman.cpp:231-259 | The evicted entry goes to its home bucket, or to the bucket just left when that is full. |
| AddrMan.CAddrMan.Good_ | src/addrman.cpp:262-311 | A known address becomes tried with fresh statistics, another tried entry at most being demoted; an unknown one changes nothing. |
| AddrMan.CAddrMan.Add_ | src/addrman.cpp:313-369 | fNew exactly for a routable address not yet known; the new entry has one reference, in the bucket its source picks; a known one is refreshed as specified and keeps its count where a guard ends Add_; no tried entry is lost, and at most one other entry loses a reference, exactly one, and it is one that may be forgotten or, where none is, the oldest of the entries at four positions of the full bucket; every table agrees. |
| AddrMan.CAddrMan.Refresh | src/addrman.cpp:321-350 | The statistics update of a known address; Add_ ends there whenever the entry says nothing new, is tried or has references enough, and otherwise only by the random test. |
| AddrMan.CAddrMan.Attempt_ | src/addrman.cpp:371-388 | Only the try time and the attempt count of the exact service change. |
| AddrMan.CAddrMan.Connected_ | src/addrman.cpp:510-527 | Only the time of the exact service changes, and only after the update interval. |
| AddrMan.CAddrMan.GetAddr_ | src/addrman.cpp:494-508 | Exactly min(23 percent, 2500) entries, pairwise different addresses of the table; only the order of vRandom changes. |
| AddrTables.RandomSize | src/addrman.cpp:440-440 | In consistent tables vRandom lists every entry once, and the untried and tried counts add up to it. |
| AddrGroups.BucketsOfGroup | src/addrman.cpp:10-36 | An address range has 4 tried buckets, the address choosing one of them; what a range announces goes to 32 "new" buckets, the range of the address choosing one of them. |
| AddrMan.CAddrMan.Add | src/addrman.h:427-440 | Whatever a source announces, and however much, only the 32 "new" buckets of its range change: every entry with a reference in another bucket stays, and so does every tried one; it reports success if a routable address was unknown. |
| AddrMan.CAddrMan.Limits | src/addrman.h:93-105 | At most 20480 addresses are held, and at most 256 tried ones of one range. |
| AddrTables.TerribleIsDispensable | src/addrman.cpp:38-56 | IsTerrible in fields and numbers. |
| AddrTables.Exchange | src/addrman.cpp:231-259 | Value-level law behind an eviction: promoting one entry in the place of another keeps every table consistent and both counts. |
| AddrTables.Promotion | src/addrman.cpp:218-229 | Value-level law behind a promotion into a bucket with room. |
| AddrTables.ReleaseOne | src/addrman.cpp:162-170 | Value-level law behind dropping a reference. |
| AddrCheck.Check | src/addrman.cpp:435-491 | The check returns zero exactly when every entry, the sizes, the tried lists and the reference counts are as Check_ demands. |
| AddrCheck.CheckEntry | src/addrman.cpp:442-461 | The result is zero exactly when the entry meets every condition of Check_. |
| AddrCheck.CheckTried | src/addrman.cpp:466-474 | The tried buckets hold no entry twice and none that is not tried. |
| AddrCheck.CheckNew | src/addrman.cpp:476-485 | No entry is in more "new" buckets than its count says, and the leftover counts show the rest. |
| AddrCheck.ConsistentPasses | src/addrman.cpp:435-491 | Every state that the operations keep passes the check. |
| AddrFile.Write | src/addrman.h:277-317 | The written file lists every untried and every tried entry once, and each bucket by the numbers of its entries. |
| AddrFile.Read | src/addrman.h:318-379 | Reading what a consistent manager wrote, into any manager, gives a consistent one with the same counts that is isomorphic to the original. |
| AddrFile.RoundTrip | src/addrman.h:270-379 | Same addresses, statistics, reference counts and bucket membership under the renumbering; only nLastTry is lost. |
| AddrFile.HasRoom | src/addrman.h:346-360 | A tried bucket has room for each of its entries when it is read: no tried entry is lost. |
| AddrFile.ReadTried | src/addrman.h:341-360 | The tried entries are numbered after the others and put in the buckets their hashes pick, none lost. |
| AddrFile.ReadBucket | src/addrman.h:361-377 | A bucket is restored with the reference counts of its entries. |
| MemPool.CTxMemPool.AddUnchecked | src/main.cpp:701-712 | Adds the transaction and exactly the links of its inputs. |
| MemPool.CTxMemPool.Remove | src/main.cpp:715-737 | Removes the transaction alone, or with exactly its descendants in the pool; the two maps keep agreeing and the recursion ends on an acyclic pool. |
| MemPool.CTxMemPool.RemoveConflicts | src/main.cpp:739-752 | Removes exactly the other spenders of the inputs with their descendants; afterwards no other pool transaction spends an input of tx. |
| MemPool.CTxMemPool.Accept | src/main.cpp:545-694 | Exact acceptance condition, no double spend within the pool among it; the pool gains the transaction or is unchanged. Once inputs are checked, each claims an existing output in range of a transaction that is not newer with its own signature check passed, and the fee is at least 10000 for every started kilobyte. |
| MemPool.CheckPoolInputs | src/main.cpp:609-672 | The input tests of accept, with the missing-inputs flag only where an input cannot be found. |
| MemPool.SpentOnce | src/main.cpp:701-712 | In every consistent pool mapNextTx[o] is (h, i) exactly when input i of pool transaction h spends o; no output is spent twice. |
| MemPool.AcyclicByHash | src/main.cpp:715-737 | A hash that cannot precede those it covers makes every pool acyclic. |
| MemPool.AcceptSupported | src/main.cpp:609-683 | Acceptance keeps the pool closed: every input is connected, or an existing output of a pool transaction. |
| MemPool.RemoveSupported | src/main.cpp:715-737 | Recursive removal keeps the pool closed. |
| MemPool.ConnectedSupported | src/main.cpp:1774-1791 | A transaction that was connected can leave the pool alone without breaking closure. |
| Miner.SortPool | src/miner.cpp:174-248 | The first pass queues exactly the transactions that wait for nothing and lists each other one under every parent it waits for. |
| Miner.ScanInputs | src/miner.cpp:187-229 | The dependencies, the value and the priority of one transaction. |
| Miner.PopBest | src/miner.cpp:87-107 | The entry taken has, by fee, the highest fee rate of the queue and among those the highest priority, or else the other way round. |
| Miner.Release | src/miner.cpp:336-350 | Taking a transaction queues exactly those that waited for it alone, each once. |
| Miner.Consider | src/miner.cpp:269-321 | A queued transaction is taken exactly when size, time, fee, signature operations and inputs fit the block so far and it is not too cheap; sorting by fee is switched on exactly when one within the limits triggers it. |
| Miner.ConnectToTest | src/miner.cpp:302-321 | The test pool gains the transaction exactly when its inputs are unspent there and it pays; fee and signature operations are those of the replayed index. |
| Miner.Round | src/miner.cpp:259-351 | Every round settles one transaction, the best of those ready, and shortens what is pending. |
| Miner.CreateNewBlock | src/miner.cpp:174-351 | The loop ends; the list has no duplicates, every in-pool parent precedes its children, every input is unspent and every transaction connects when replayed in order, size and signature operations stay under their limits, and the fees are exact. The log of the rounds tells the whole run: each settles the transaction with the highest priority, or fee rate by the mode then on, among those ready and not yet settled; takes it exactly when it fits the block so far and is not too cheap; the mode changes exactly when a settled transaction triggers it; and every transaction whose parents were taken is settled. |
| Miner.LimitsAre | src/miner.cpp:142-155 | The three size limits in numbers. |
| Miner.ParentsPrecede | src/miner.cpp:192-219 | Each parent is readable from disk or stands earlier in the block, and each claimed output is unspent there. |
| MinedBlock.SupportedCloses | src/miner.cpp:197-211 | A pool that Accept and Remove keep supported, over an index whose entries can be read, is closed under parents as assembly needs it. |
| MinedBlock.MinedBlockConnects | src/miner.cpp:300-360 | The assembled list behind a coinbase that claims no more than the subsidy and the counted fees passes ConnectBlock, positions, maturity and totals of the real block included. |
| MinedBlock.MinedBlockOk | src/miner.cpp:259-321 | It passes CheckBlock when header, coinbase and pool transactions do. |
| Merkle.BuildMerkleTree | src/main.h:952-969 | The flat array is the levels one after the other, and its last element the root. |
| Merkle.GetMerkleBranch | src/main.h:971-985 | The branch read from the array is the list of siblings on the way up. |
| Merkle.CheckMerkleBranch | src/main.h:987-1000 | Folds the leaf with the branch; index -1 gives zero. |
| Merkle.BranchLeadsToRoot | src/main.h:971-1000 | The branch of every leaf leads to the root, odd levels included, and is as long as the tree is deep. |
| Merkle.OnlyOwnBranch | src/main.h:987-1000 | With an injective pair hash a branch of that length leads to the root exactly for the leaf of that index with its own siblings. |
| Merkle.RootDetermines | src/main.cpp:2117-2137 | Lists of one depth without duplicates have equal roots exactly when they are equal. |
| Merkle.RepeatedTailHides | src/main.cpp:2117-2125 | Repeating the last element of any odd list of three or more changes neither root nor depth: the duplicate check is needed. |
| Locator.Set | src/main.h:1488-1503 | The list holds the ancestors at distances 0 to 10, 11, 13, 17, ... as far as they reach, and genesis. |
| Locator.GetBlockIndex | src/main.h:1526-1540 | Returns the first entry on the active branch, else genesis. |
| Locator.GetDistanceBack | src/main.h:1505-1524 | Returns the distance of the first entry on the active branch, although its steps double on another condition. |
| Locator.MatchIsNear | src/main.h:1488-1540 | The match is an active ancestor at most twice as far as the fork, and the computed distance is the true one unless the match is the trailing genesis hash. |
| Locator.LocatorIsShort | src/main.h:1488-1503 | At most 13 entries more than the binary logarithm of the height plus one. |
| BigNum.MpiRoundTrip | src/bignum.h:295-320 | Every integer is read back from its sign-and-magnitude bytes. |
| Compact.GetCompact | src/bignum.h:334-345 | The byte-wise code computes the size, the sign and the three highest bytes. |
| Compact.SetCompact | src/bignum.h:322-332 | The byte-wise code computes the value of a compact number, sign included. |
| Compact.DecodeEncode | src/bignum.h:322-345 | Decoding an encoded number keeps exactly its three highest bytes and its sign. |
| Compact.KeptBounds | src/bignum.h:322-345 | The rounding is downward and loses less than 256 to the power size minus 3. |
| Compact.KeptIdempotent | src/bignum.h:322-345 | Rounding twice is rounding once. |
| Compact.KeptMonotone | src/bignum.h:322-345 | Rounding is monotone. |
| Retarget.GetLastBlockIndex | src/main.cpp:1051-1056 | The last block of the kind, or genesis. |
| Retarget.GetNextTargetRequiredV2 | src/main.cpp:1088-1118 | The bits are the compact form of the clamped exponential move towards the target spacing. |
| Retarget.SpacingIs | src/main.cpp:1102-1107 | The spacing is the time of the last block of the kind less that of the one before it, or 60 when that is negative. |
| Retarget.NextTargetIs | src/main.cpp:1088-1118 | In numbers: the limit without two blocks of the kind above genesis; else the last target times 900 plus twice the spacing, over 1020, cut to a whole number, unless that is not positive or above the limit. |
| Retarget.NextTargetInRange | src/main.cpp:1088-1143 | For every chain the bits decode to a positive target within the limit. |
| Retarget.NextTargetFloor | src/main.cpp:1106-1117 | From a target of at least 2 within the limit the next one is at least what compact form keeps of 15/17 of it, and moves in the direction of the spacing. |
| Retarget.NextTargetMonotone | src/main.cpp:1106-1117 | Between chains ending in the same bits the longer spacing gets the higher target, except exactly where a target of 1 rounds to zero for the shorter spacing only and the rounded limit lies above what the longer spacing gives. |
| Retarget.TargetOneJumps | src/main.cpp:1113-1115 | From a target of 1 a spacing below the target spacing decodes to the limit, the target spacing to 1. |
| Framing.Sender.BeginMessage | src/net.h:334-345 | Opens a message after dropping one left open. |
| Framing.Sender.AbortMessage | src/net.h:346-357 | Cuts the buffer back to where the message began. |
| Framing.Sender.EndMessage | src/net.h:359-389 | Patches size and checksum: the buffer ends with the complete frame; without an open message nothing happens. |
| Framing.IsValid | src/protocol.cpp:47-75 | The scanning loops accept exactly the right start, a printable command padded with zeros, and a size within the limit. |
| Framing.HeaderIs | src/protocol.cpp:47-75 | The header tests and fields in byte offsets and numbers. |
| Framing.HeaderRoundTrip | src/protocol.cpp:31-75 | Command, size and checksum of a header come back for every valid command. |
| Framing.Receiver.ProcessMessages | src/main.cpp:3516-3635 | The loop over the buffer dispatches and leaves exactly what Parse says, garbage and damaged frames included; the next four rows say byte by byte what that is. |
| Framing.Dispatched | src/main.cpp:3539-3593 | For every buffer: each dispatched message is a slice of it with message start, printable padded command, size within the limit and matching checksum, the slices do not overlap and come in order, and what is left is the end of the buffer. |
| Framing.FrontDecides | src/main.cpp:3566-3593 | At a valid header reading waits when the payload is not all there, goes on behind the header when the checksum is wrong, and dispatches the payload otherwise. |
| Framing.BadHeader | src/main.cpp:3555-3563 | At a message start with an invalid header reading goes on behind the header. |
| Framing.NothingStarts | src/main.cpp:3539-3553 | Bytes before which no message starts are skipped, and without a start that has a header behind it the last 24 bytes are kept. |
| Framing.CutAnywhere | src/main.cpp:3533-3593 | For arbitrary bytes, reading them in two parts dispatches the same messages and leaves the same rest as reading them at once. |
| Framing.FeedIsParse | src/main.cpp:3516-3635 | The same for any number of chunks. |
| Framing.Receive | src/main.cpp:3516-3635 | A receiver fed chunk by chunk ends like one that reads everything at once. |
| Framing.Send | src/net.h:334-389 | Messages written one after the other give their frames one after the other. |
| Framing.Delivered | src/main.cpp:3516-3635 | Valid messages, written and cut anywhere, are dispatched exactly as sent and the buffer ends empty. |
| Base58.EncodeBase58 | src/base58.h:28-66 | The division loop computes one 1 for every leading zero byte followed by the number. |
| Base58.DecodeBase58 | src/base58.h:76-120 | Succeeds exactly on alphabet characters surrounded by white space up to the terminating NUL, with the leading zeros and the number of those characters. |
| Base58.DecodeEncode | src/base58.h:28-120 | Decoding gives back every byte string, leading zeros and sign byte included. |
| Base58.EncodeDecode | src/base58.h:28-120 | Encoding what was decoded gives back the text without the white space. |
| Base58.EncodedLength | src/base58.h:43-57 | The text never outgrows the reserved n*138/100+1 characters. |
| Base58.DecodeBase58Check | src/base58.h:144-161 | Succeeds exactly when the last four bytes are the hash of the rest. |
| Base58.CheckedRoundTrip | src/base58.h:133-161 | Checked texts decode to exactly the data they were made from. |
| Base58.TrimmedIs | src/base58.h:104-109 | The bytes of a number without its sign byte have no leading zero. |
| Base58.AlphabetIs | src/base58.h:25-25 | The alphabet is the digits and letters without 0, O, I and l, in the order of their codes. |
| StakeModifier.GetStakeModifierSelectionInterval | src/kernel.cpp:62-68 | The loop sums the 64 sections to the selection interval. |
| StakeModifier.SectionIs | src/kernel.cpp:55-59 | A section is 37800 seconds over 189 - 2n, cut to a whole number. |
| StakeModifier.Sort | src/kernel.cpp:162-163 | The candidates in order of time, and of hash within one time, none lost. |
| StakeModifier.SelectBlockFromCandidates | src/kernel.cpp:73-114 | Succeeds exactly when a candidate is free; picks the first with the least selection hash among the free ones up to the stop, or the first free one. |
| StakeModifier.ChosenOnce | src/kernel.cpp:73-114 | The rule leaves no choice. |
| StakeModifier.StakeFavoured | src/kernel.cpp:91-99 | A proof-of-stake block with hash h is not behind a proof-of-work block with hash g exactly when h is below (g + 1) times 2 to the 32. |
| StakeModifier.SelectBits | src/kernel.cpp:165-182 | Each of the min(64, n) rounds succeeds, picks are pairwise different, and the bits are theirs. |
| StakeModifier.ModifierOnce | src/kernel.cpp:165-182 | The candidates, the start and the previous modifier determine the new modifier. |
| StakeModifier.BitAt | src/kernel.cpp:176-177 | Bit r of the modifier is the entropy bit of the r-th pick. |
| StakeModifier.GetLastStakeModifier | src/kernel.cpp:41-52 | The last generated modifier, or an error when genesis generated none. |
| StakeModifier.ComputeNextStakeModifier | src/kernel.cpp:129-213 | The previous modifier is kept within one interval; otherwise the candidates are exactly the blocks back to the selection start and the rounds are as above. |
| LockedPages.LockedPageManager.LockRange | src/allocators.h:56-77 | Every page counter stays the number of live ranges that touch the page. |
| LockedPages.LockedPageManager.UnlockRange | src/allocators.h:79-100 | The same after a range is unlocked; the lookup never fails for a range that was locked. |
| LockedPages.LockedPageManager.LockedWhileUsed | src/allocators.h:64-76 | A page is locked exactly while a live range touches it. |
| LockedPages.LockedPageManager.AllUnlocked | src/allocators.h:87-99 | When everything is unlocked no page and no counter is left. |
| LockedPages.TouchesIs | src/allocators.h:61-64 | A page is touched exactly when the range holds one of its bytes. |

## Left out

- Sockets, threads, the RPC and the graphical interface, start-up and shutdown, and LoadBlockIndex: plumbing around the state machines.
- The genesis branch of SetBestChain (src/main.cpp:1797-1803): a ChainState starts with genesis in place.
- Wallet notification, relaying, orphan transactions and orphan blocks: they only feed the operations modelled here.
- The memory-pool updates inside Reorganize and SetBestChain (src/main.cpp:1759-1763, 1786-1788): the pool of ChainState is a fixed source of transactions; pool and chain are connected by the closure lemmas of MemPool only.
- Signatures, scripts, proof-of-work and proof-of-stake hashes: an opaque predicate, an opaque count and the flag fHeaderOk of a block; the conditions of AcceptBlock on targets, clock, lock times and built-in checkpoints are one flag.
- int64 overflow of amounts: amounts are unbounded integers; every sum the code compares with MoneyRange is compared here too.
- Serialized sizes are fields of a transaction, positive and otherwise arbitrary; the byte encoding of records in peers.dat is not modelled, only which records and numbers are written.
- ChainState.TxnCommit: a failing commit is taken to write nothing.
- ChainState.AddToBlockIndex: does not model a failing write of the new block's own index record (src/main.cpp:2028-2034), because that only keeps the block from becoming the tip, as a less trusted block is kept from it.
- Blocks.GetCoinAge: does not model a block header that cannot be read (src/main.cpp:1937-1941), because the transaction was just read from the same file.
- Supply.WorkBoundNeedsNoCoinStake: does not show the five blocks below its block, because only the index they leave matters to it.
- GetNextTargetRequiredV1 (src/main.cpp:1058-1086): without the lower clamp nothing keeps its result positive.
- Hasher.group (src/netbase.cpp:850): which range an address belongs to is an arbitrary function.
- CAddrMan.Select_ (src/addrman.cpp:390-433): its loops end only with probability one. No statement here is about probabilities.
- AddrCheck.Check: does not model that operator[] on mapAddr inserts a zero for an address that is missing, because no consistent state has such an address.
- AddrFile.Read: does not model more than 256 buckets in a file, because the source then indexes past the end of its bucket vector.
- SyncCheckpoints.AcceptBlock: does not model AcceptPendingSyncCheckpoint after a postponed reconnect stopped early, because the chain state is then not whole; the state is still safe.
- ResetSyncCheckpoint, SendSyncCheckpoint, hardened checkpoint tables and the ADVISORY and PERMISSIVE modes: they do not take part in the STRICT protocol.
- MemPool.CTxMemPool.Accept: does not model the replacement code after the early return (src/main.cpp:583-598), because it cannot be reached; the rate limit on free transactions is a flag.
- Miner.CreateNewBlock: does not model the coinbase transaction and the header it fills in, because they are made before and after the loop; the missing-input branch is excluded by a pool closed under parents.
- Framing.Receiver.ProcessMessages: does not model the pause while the send buffer is full, because it only postpones the same loop, nor exceptions of ProcessMessage, which are caught.
- StakeModifier: the stake kernel check and the checksums of modifiers are not modelled; std::sort is an insertion.
- LockedPages: addresses are unbounded, so a range that reaches the last page of the address space is not modelled.
