# nutz-verify in Dafny

nutz-verify recomputes the hourly payouts of a reward token from its transfer history and compares them
with the Merkle Root a Distributor contract holds. This project models that computation and proves what
it is for. The main results:

- **Ledger and Replay agree.** The incremental Ledger, with its pruned list, lazily restarted accruals and
  sticky failure, gives for every increasing run of Epochs what a batch Replay gives
  (`Ledger.AdvanceAgreesWithReplay`), and both give the mathematical answer: floors of the integral of
  each balance over the window's seconds, over exactly the eligible addresses. A history is refused exactly
  when a value is bad or a balance is negative at some second (`Judgement.RejectedIffUnacceptable`),
  whatever order it comes in.
- **The Cache holds whole blocks of one chain.** It does so through any run of syncs, reorgs, failed reads and
  reopenings after damage a scan can see (`Following.SyncAll`). A Sync to a tip with a hash finishes exactly
  when no read it makes fails (`Cache.Cache.Sync`). Finished, it holds what a fresh one would when nothing was
  held past the tip; past the tip, `Following.FreshIff` says exactly when it has the chain's records through
  the tip, and `Following.LeftBehind` is a run in which it has not. `Feed.LoadHistory` carries this to the
  history the rules replay.
- **The Merkle tree is complete and binding.** Every claim's proof verifies (`Tree.ProveAndVerify`); one
  Root means one bag of claims, and only claims of the tree verify, or two strings that hash alike are
  exhibited (`Binding`). Its nodes, read as numbers, are the only array of their kind (`Shape.OneTree`). Hash
  functions are parameters: nothing is assumed of them.
- **Allocation** gives each Holder its due in plain numbers (`Alloc.AllocationIsDue`) and conserves, token by
  token, with less than one unit of dust a Holder (`Alloc.AllocationConserves`).
- **The Carry chain.** `Walk` succeeds exactly when the chain has a walk, and ends in what `Compute` gives
  (`Engine.WalkAndCompute`); earlier links are Computes too (`Engine.ComputeLinks`). Over a whole Walk
  funding, totals and carry balance (`Carry.WalkConserves`). The widening backwards search for a Root equals
  one scan, and finds the previous standing Root exactly under the stated order of the log
  (`Roots.PreviousIffOrderly`).
- **Reads of the chain** are exact against endpoints that refuse in any pattern, as long as one is honest
  (`Reader.ReadLogs`), and the comparison form is unambiguous (`Logs.CanonicalInjective`).
- **MATCH means what it says** (`Report.Assess`, `Report.AssessResult`, `Report.MatchBinds`).

## How it is laid out

| file | source | holds |
|---|---|---|
| `Wrappers`, `Sorting`, `Bags`, `Ranges`, `Bytes` | | Option and Result, a stable sort, bags, ranges of blocks, big-endian numbers |
| `History`, `Judgement`, `Supply` | internal/twab | what a history means, when it is refused, what it conserves |
| `Replay`, `Ledger` | internal/twab | the walk over a history, as classes with their fields |
| `Merkle`, `Tree`, `Binding`, `Shape` | merkle | encoding, the array tree and proofs, what a Root binds, the nodes in numbers |
| `Records`, `ChainView`, `Cache`, `Following` | cache | the record format, views of a chain, the log that follows one, what any run of it holds |
| `Feed` | epoch | from the Cache to the history the rules replay |
| `Alloc` | internal/alloc | weights, floors, omission, totals |
| `Logs`, `Reader`, `EndBlock` | chain | log pages, the pager and cross-check, the end of an Epoch |
| `Roots`, `Carry`, `Engine` | epoch | which Root stands, the Carry chain, the Engine |
| `Report` | internal/report | Assertions and Verdicts |

State that the source updates in place is a class here with the same fields; loops are loops. A method is
proved against a function or predicate over values, and the theorems are about those.

Integers are unbounded where the source uses `big.Int`. `uint64` and `int64` are bounded types, so that
every addition on block numbers is shown not to wrap. Go's nil `*big.Int` is `None`. `Quo` truncates as Go
does. Block hashes, keccak-256 and CRC32C are values and functions about which nothing is known.

## Where the code and its account of itself part

- `epoch/engine.go:294-297` says an Epoch the Ledger has passed is replayed from the start. A Ledger that
  refused a late Epoch is kept while the floor stays where it was, so an earlier Epoch that Replay accepts
  is then refused too. `Engine.Engine.Holders` gives the exact condition, `Engine.AfterARefusal` the whole
  family of runs and `Engine.RefusalExample` one of them; `Engine.InAnyOrder` is the claim for accepted
  histories.
- A file cut just after a record scans clean (`Cache.CutLooksClean`), so a repair does not always end on a
  block boundary: `Following.Reopen` says exactly when it does.
- `cache/sync.go:62-63` leaves records past the tip as they are. If the branch they are on left the chain at
  or below the tip and nothing is held below it to tell, they stay, and blocks behind them are not read:
  `Following.LeftBehind` is such a run and `Following.FreshIff` the exact condition.
- `cache/sync.go:143` compares with `tip + 1`, which is 0 at the top of uint64, and then nothing is checked
  (`Following.NothingCheckedAtTheTop`). What a finished Sync leaves there is right exactly when the newest
  record held before, if there was one, is still on the chain (`Following.AtTheTopIff`).

## Model

| member | source | states |
|---|---|---|
| `Ledger.AdvanceAgreesWithReplay` | internal/twab/ledger.go:51-120 | one Ledger taken through any increasing Epochs, gaps allowed, answers each as a Replay from scratch does: same Holders, same order, or same refusal |
| `Ledger.Ledger.Advance` | internal/twab/ledger.go:51-86 | the outcome the whole history has for the Epoch; a refused Ledger stays refused and a passed Epoch is refused, both leaving the Ledger as it was |
| `Ledger.Ledger.CloseNext` | internal/twab/ledger.go:60-86 | past the two refusals: the outcome of the Epoch, with the floor moved on success and the fault kept on failure |
| `Ledger.Ledger.constructor` | internal/twab/ledger.go:39-45 | a Ledger over a history stands at Epoch 0, not refused |
| `Ledger.Ledger.FailedIsFault` | internal/twab/ledger.go:88-92 | what a Ledger was refused for is the first fault of its whole history, whichever Epoch met it |
| `Ledger.BothWays` | internal/twab/ledger.go:51-86 | asked about an Epoch it has not passed, a Ledger and Replay give equal answers, and it is ready for every later Epoch |
| `Replay.Replay` | internal/twab/replay.go:72-102 | the first fault below the closing instant, or else exactly the eligible Holders of the window, ascending |
| `Replay.ExcludedAsOf` | internal/twab/replay.go:131-149 | strictly ascending, and an address is in it exactly when some entry names it before the close |
| `Replay.Standing.AccrueTo` | internal/twab/replay.go:271-279 | the whole standing afterwards; nothing moves when time does not |
| `Replay.ReplayState.At` | internal/twab/replay.go:253-266 | the standing is listed, fresh accruals start at the opening, and every other standing is as it was |
| `Replay.ReplayState.Debit` | internal/twab/replay.go:207-216 | the sender accrues, pays and sells; it is marked moved; nobody else changes |
| `Replay.ReplayState.Credit` | internal/twab/replay.go:218-226 | the receiver accrues, is paid and keeps its first receipt; nobody else changes |
| `Replay.ReplayState.Apply` | internal/twab/replay.go:192-229 | nil and negative values are the two faults; otherwise every standing is what the transfer makes of it and the sender is marked moved |
| `Replay.ReplayState.Settle` | internal/twab/replay.go:233-245 | the first moved account whose whole-history balance is negative, or none and the list cleared |
| `Replay.ReplayState.Block` | internal/twab/replay.go:79-100 | one block applied and judged: a fault is the first of the whole walk, and without one the walk stands after the block |
| `Replay.ReplayState.Run` | internal/twab/replay.go:79-100 | stops at the first transfer at or past the close, or at the first fault, which lies before the close |
| `Replay.ReplayState.CloseOne` | internal/twab/replay.go:291-309 | one open sub-interval closed and the whole sum divided once, no other standing touched |
| `Replay.ReplayState.Reduce` | internal/twab/replay.go:282-310 | every listed, included address with a positive average is there once, and nobody else |
| `Replay.ReplayState.Holders` | internal/twab/replay.go:282-319 | standings that agree with a history reduce to exactly the Holders the history has |
| `Replay.ReplayState.Open` | internal/twab/ledger.go:99-120 | a new window keeps every standing in agreement with the history, and only holders of something stay listed |
| `Replay.ReplayState.Resume` | internal/twab/ledger.go:99-120 | after opening, the Ledger stands where a walk from the start would |
| `Replay.ReplayState.Finish` | internal/twab/replay.go:79-102 | from any point of the walk, the rest of it comes to the outcome of the whole history |
| `Replay.ReplayState.constructor` | internal/twab/replay.go:174-185 | an empty state: every address looks unseen |
| `Replay.ApplyAgrees` | internal/twab/replay.go:192-229 | one transfer keeps a standing equal to the sums, minimum, maximum and integral of the history so far |
| `Replay.AccrueAgrees` | internal/twab/replay.go:271-279 | lazy accrual is the integral of the balance second by second |
| `Replay.ReopenAgrees` | internal/twab/ledger.go:99-120 | dropping an address that holds nothing and restarting the others loses nothing of the new window |
| `Replay.CloseAgrees` | internal/twab/replay.go:282-311 | a closed standing has a positive average exactly when the history gives one, and then is that Holder; an unlisted one has none |
| `Replay.IntegralSteady` | internal/twab/replay.go:269-279 | seconds in which nothing happens add that many balances |
| `Replay.FaultNoEarlier` | internal/twab/replay.go:79-100 | a walk over an ascending history meets no fault dated before where it stands |
| `Replay.OutcomeUnique` | internal/twab/replay.go:72-102 | a history has one outcome for a window |
| `Replay.HoldersOfPrefix` | internal/twab/replay.go:79-102 | transfers at or past the close change nobody |
| `History.HoldersUnique` | internal/twab/replay.go:282-319 | only one list of Holders answers to a history |
| `History.SortedByTimestamp` | internal/twab/replay.go:107-114 | ascending by timestamp, as many as there were |
| `Sorting.SortIsStable` | internal/twab/replay.go:107-114 | transfers of one second keep the order they arrived in |
| `Sorting.SortPermutes` | internal/twab/replay.go:107-114 | sorting loses and repeats nothing |
| `History.FirstBuyIsEarliest` | internal/twab/replay.go:218-226 | FirstBuyAt is the least timestamp of a non-zero receipt, none exactly when there is none |
| `History.LastSellIsLatest` | internal/twab/replay.go:207-216 | LastSellAt is the greatest timestamp of a non-zero send, none exactly when there is none |
| `History.HolderIs` | internal/twab/replay.go:282-319 | a Holder is no mint and not excluded by the close; its average is the floor over 3600 seconds; it is stamped with its earliest receipt and its latest send, or 0 |
| `History.PermutedHistory` | internal/twab/replay.go:79-114 | any reordering of a history is accepted for the same windows and has the same Holders |
| `Judgement.RejectedIffUnacceptable` | internal/twab/replay.go:229-245 | judging only the moved senders at block ends rejects exactly when some value is bad or some balance is negative at some second before the close |
| `Judgement.RefusalNamesCause` | internal/twab/replay.go:192-245 | a refusal names a transfer without a value or with a negative one, or a sender overdrawn at the end of that second, and nothing is wrong before it |
| `Judgement.FaultIffUnsound` | internal/twab/replay.go:79-100 | from any block on, a fault before the close is met exactly when a bad value or an overdrawn block end lies there |
| `Judgement.BlockJudged` | internal/twab/replay.go:233-245 | a block has no fault exactly when its values are good and nobody at all ends it below zero |
| `Judgement.ReorderedOutcome` | internal/twab/replay.go:79-114 | closing an Epoch over a reordered history refuses alike and returns equal Holders |
| `Judgement.LongerHistory` | internal/twab/replay.go:79-83 | a history with anything added at or past the close comes to the same |
| `Supply.SupplyConserved` | internal/twab/replay.go:192-229 | balances over every address sum to what was minted less what was burned |
| `Supply.HeldAtMostSupply` | internal/twab/replay.go:233-245 | with nobody negative, any set of addresses holds at most the supply |
| `Supply.TwabsAtMostSupply` | internal/twab/replay.go:282-311 | over an accepted window the Holders' averages sum to at most the floor of the average supply |
| `Cache.Cache.Sync` | cache/sync.go:69-129 | whole blocks of one view before and after, on failure too; it fails exactly when the tip has no hash or a read it makes fails, a header on the way to the fork or a chunk after what is kept; finished, the reorg reported is then the first held block off chain with the count dropped, and a Cache not past the tip, or cut back, holds exactly what a fresh one would, while one past it that was not cut is unchanged |
| `Following.SyncAll` | cache/sync.go:69-129 | over any run of syncs, tips, reorgs and reopenings, with reads failing anywhere and any damage a scan can see, the Cache holds whole blocks of one view of the chain |
| `Following.SyncedAlike` | cache/sync.go:69-129 | two Caches of one chain, neither past the tip, are the same file once each is synced to it and written out |
| `Following.FreshIff` | cache/sync.go:62-63 | a finished Sync leaves the chain's records through the tip if and only if nothing was held past the tip, or the newest record at or below it had left the chain, or the chain has no record between that and the tip |
| `Following.SameTipIsFresh` | cache/sync.go:88-91 | while the branch held and the chain have one block at the tip, a finished Sync is always fresh through it |
| `Following.LeftBehind` | cache/sync.go:88-91 | a run in which a Cache past the tip keeps a record of a branch that left the chain below it, and a record of the chain is never read |
| `Following.NothingCheckedAtTheTop` | cache/sync.go:141-146 | with the tip at 2^64 - 1 every Cache passes the check, whatever it holds |
| `Following.AtTheTopIff` | cache/sync.go:141-146 | there a finished Sync leaves what a fresh one would if and only if the newest record held before, if there was one, is still on the chain |
| `Following.NewestTells` | cache/sync.go:148-162 | what is held is whole blocks of the chain shown if and only if its newest record stands |
| `Following.Reopen` | cache/cache.go:368-436 | a file of which the first k records are as written keeps those, less the block the damage falls in, which is whole blocks if and only if a scan can see the damage after them, or the file ends between two blocks |
| `Following.ScanIsIntactPart` | cache/cache.go:368-410 | the scan of a file sound through k records and no further is those k records |
| `Following.IntactScans` | cache/cache.go:368-410 | strides no damage has reached scan to the records written |
| `Feed.LoadHistory` | epoch/engine.go:171-244 | open, sync, reopen and read: it fails exactly when the Sync of what the damage left fails, and the history is the chain's through the tip as far as the tip's instant whenever Sync leaves the chain's records through the tip: every balance is what the records brought an address less what they took, and its first buy and last sell are the least and greatest stamps of such records |
| `Feed.HeldIsChain` | epoch/engine.go:171-244 | what a finished Sync holds says what the chain's records through the tip say, up to the tip's instant |
| `Feed.SameOutcome` | epoch/engine.go:227-241 | histories that say the same up to the tip close every Epoch closed at the tip alike |
| `Feed.ReadAgain` | epoch/engine.go:219-241 | written out, opened again and read through a fresh scan, a Cache gives the records it held |
| `Feed.BalanceOfRecords` | epoch/engine.go:227-239 | an address has at every second what the records stamped by then with it as receiver brought, less what those with it as sender took |
| `Feed.FirstBuyOfRecords` | epoch/engine.go:227-239 | its first buy is the least stamp of a record that brought it something, none exactly when there is none |
| `Feed.LastSellOfRecords` | epoch/engine.go:227-239 | its last sell is the greatest stamp of a record that took something from it, none exactly when there is none |
| `Feed.Convert` | epoch/engine.go:227-239 | every record in the rules' type, in order: its own timestamp, sender, receiver and value |
| `Cache.Cache.Verify` | cache/sync.go:133-190 | keeps everything when the newest record at or below the tip stands, and otherwise exactly what comes before the fork; it fails, keeping everything, exactly when a header it asks for cannot be read |
| `Cache.Cache.FindFork` | cache/sync.go:148-176 | an index off the chain whose predecessor is on it, or none when the newest is on it; it fails exactly when the newest header cannot be read, or one the halving comes to |
| `Cache.StandsIffBeforeFork` | cache/sync.go:131-176 | binary search is sound: everything before the fork found is on chain and nothing from it on is |
| `Cache.ForkIsExact` | cache/sync.go:133-190 | the block of the fork starts at the fork, and what is before it is whole blocks of the new branch |
| `Cache.VerifiedIsWhole` | cache/sync.go:133-190 | what verification keeps is whole blocks of the chain now shown, unless it runs past the tip, when nothing is dropped |
| `Cache.ExtendedIsWhole` | cache/sync.go:86-126 | what is kept and what is read after it make whole blocks of one view |
| `Cache.Cache.CatchUp` | cache/sync.go:96-126 | chunk by chunk: what is added is every record of the blocks reached, all of them unless the transfers of some chunk, counted in steps from the first block, cannot be read |
| `Cache.Cache.AppendChunk` | cache/sync.go:96-117 | one chunk in full, or not at all exactly when its transfers cannot be read |
| `Cache.Cache.Extend` | cache/sync.go:86-129 | reads from after the newest record, or nothing when that is at or past the tip; it fails exactly when the transfers of a chunk in between cannot be read |
| `Cache.ChunkEnd` | cache/sync.go:97-100 | a chunk stays at or below the tip and is full unless it ends there; no uint64 wraps |
| `Cache.Cache.Truncate` | cache/sync.go:194-226 | keeps exactly the records before the block and reports how many went |
| `Cache.Cache.FirstAtOrAbove` | cache/sync.go:230-236 | the number of records before the block |
| `Cache.FirstWhere` | cache/sync.go:255-276 | whatever the predicate, a place where it turns, or an error the predicate gave, exactly when the halving comes to a place that fails |
| `Cache.RecordAtLog` | cache/sync.go:239-251 | record i of a log reads back as itself |
| `Cache.Cache.Append` | cache/cache.go:458-493 | accepts exactly the storable batches that run forward; an accepted one extends the log, and a refused one changes nothing and names the first record that cannot follow and why |
| `Cache.EncodeBatch` | cache/cache.go:458-480 | encodes exactly the batches that may be appended, to the bytes of the log; else names the first record at fault |
| `Cache.EncodeNext` | cache/cache.go:463-476 | the next record of a batch into its place, or a refusal that names it and means the batch may not be appended |
| `Cache.Cache.Flush` | cache/cache.go:496-515 | the buffer reaches the file and the log is the same |
| `Cache.Cache.Each` | cache/cache.go:519-547 | reads back exactly what is held |
| `Cache.Cache.Scan` | cache/cache.go:368-410 | adopts a clean file whole, and cuts a damaged one back to the start of the block the damage follows, with kept and dropped exact and the last good block that of the newest record kept, or 0 |
| `Cache.TroubleIs` | cache/cache.go:386-401 | in the bytes of the file, why a scan stops: a stride cut short, four bytes that are not the checksum of the 120 before, a block before the start, or one behind the record before |
| `Cache.ScanFile` | cache/cache.go:368-410 | the count, last record, block start and block before of the longest readable run, and why it ends |
| `Cache.Cache.Repaired` | cache/cache.go:414-436 | the file is the log of what is kept, and the Repair says what was dropped |
| `Cache.Cache.RepairAt` | cache/cache.go:414-436 | the file cut to a record boundary, with count and last to match |
| `Cache.Open` | cache/cache.go:217-280 | over any bytes: a valid Cache of the scan of the file, or of the scan cut to a block boundary |
| `Cache.RepairLeavesWholeBlocks` | cache/cache.go:400-436 | part of a log of whole blocks, cut back to where its newest block starts, is whole blocks |
| `Cache.UndamagedScan` | cache/cache.go:368-410 | an untouched log scans to the records appended |
| `Cache.ScanUnique` | cache/cache.go:368-410 | a file has one scan |
| `Cache.CutLooksClean` | cache/cache.go:379-383 | a file cut after any record scans with no trouble: such a cut is not noticed |
| `ChainView.CutWholeIff` | cache/cache.go:379-383 | a cut leaves whole blocks if and only if it falls between two blocks |
| `ChainView.CutBetweenBlocks` | cache/sync.go:194-226 | a cut between two blocks leaves whole blocks |
| `ChainView.WholeInBoth` | cache/sync.go:133-148 | when two views agree on the newest record held, what is held is whole blocks of both |
| `Records.RecordRoundTrip` | cache/cache.go:113-150 | a stored record decodes to itself |
| `Records.StrideLayout` | cache/cache.go:113-133 | the fields at their offsets, big-endian, the timestamp in two's complement, and the checksum of the first 120 bytes in the last four |
| `Records.DecodedIsStored` | cache/cache.go:136-150 | whatever decodes is the stored form of what it decodes to: no byte is ignored |
| `Records.Encode` | cache/cache.go:113-133 | refuses exactly the values that are not uint256, touching nothing; otherwise writes the stored form and no byte past it |
| `Records.LogAt` | cache/cache.go:438-440 | stride i of a log is record i |
| `Records.LogAppend` | cache/cache.go:458-493 | the log of two runs is the two logs in turn |
| `Tree.Tree.constructor` | merkle/tree.go:26-71 | 2n-1 nodes that are the tree over the sorted leaves, every claim with a place of its own among the leaves n-1..2n-2 |
| `Tree.Tree.PlaceLeaves` | merkle/tree.go:59-63 | leaves back to front, each claim told where its own went |
| `Tree.Tree.HashPairs` | merkle/tree.go:65-67 | every node above the leaves is the pair hash of its children |
| `Tree.Tree.LeavesAtArrivals` | merkle/tree.go:53-63 | leafAt is one-to-one onto the leaf indexes and names the hash of its own claim |
| `Tree.New` | merkle/tree.go:26-71 | a tree exactly when there are claims and all encode; else no claims, or the first claim that does not encode and why |
| `Shape.NodesAreTree` | merkle/tree.go:26-71 | in numbers: every inner node hashes its two children, the smaller first; the leaves are the double hashes of the encodings, greatest at node n-1 and least at node 2n-2 |
| `Shape.OneTree` | merkle/tree.go:26-71 | only one array of nodes is so |
| `Shape.TreeIsTree` | merkle/tree.go:26-77 | the arrays of a Tree are so, and its Root is node 0 |
| `Shape.RootOfTwo` | merkle/tree.go:26-71 | the Root over two claims hashes their two leaf hashes, the smaller first |
| `Tree.ProveAndVerify` | merkle/tree.go:83-109 | every claim of every tree is accepted with the proof given for it |
| `Tree.Tree.Proof` | merkle/tree.go:83-90 | a proof that folds to the Root, of floor or ceiling log2 n hashes |
| `Tree.ProofVerifies` | merkle/tree.go:83-109 | the sibling chain of any node folds to the Root |
| `Tree.LeafProofLength` | merkle/tree.go:83-99 | a leaf proof has floor(log2 n) or ceil(log2 n) hashes |
| `Tree.SiblingIndex` | merkle/tree.go:93-99 | another node with the same parent |
| `Tree.Verify` | merkle/tree.go:102-109 | true exactly when the proof folds the leaf to the Root; a one-hash proof exactly when the Root hashes leaf and sibling, the smaller number first |
| `Tree.Tree.Root` | merkle/tree.go:77 | the Root of the encodings the tree was built from |
| `Tree.Tree.Leaf` | merkle/tree.go:80 | the double hash of the i-th encoding |
| `Tree.Dump` | merkle/dump.go:36-61 | every claim reads back number for number, with the node its leaf is at |
| `Tree.ReadBack` | merkle/dump.go:43-58 | an encoding reads back as its claim |
| `Binding.SameRootSameClaims` | merkle/tree.go:26-71 | claim lists of any two lengths with one Root are one bag of claims, or two hashed strings collide |
| `Binding.VerifiedIsClaim` | merkle/tree.go:102-118 | a claim any proof takes to the Root is a claim of the tree, or two hashed strings collide |
| `Binding.VerifiedIsNode` | merkle/tree.go:102-118 | whatever a proof takes to the Root is a node of the tree, or a collision |
| `Binding.SameHashSameLeaves` | merkle/tree.go:65-67 | nodes of two trees with one hash have the same leaves below them, or a collision |
| `Binding.RootHasAllLeaves` | merkle/tree.go:59-67 | every leaf is below the Root exactly as often as it is in the row |
| `Binding.PermutedClaimsSameRoot` | merkle/tree.go:48-51 | reordering claims never changes the Root |
| `Merkle.Encode` | merkle/merkle.go:36-54 | the ABI words of an encodable claim, or its first number that is not a uint256 |
| `Merkle.EncodingInjective` | merkle/merkle.go:36-54 | two claims with one encoding are one claim |
| `Merkle.PutUint256` | merkle/merkle.go:63-76 | nil, negative and wide numbers refused with nothing written; otherwise big-endian in its word and nothing else changed |
| `Merkle.PutAccount` | merkle/merkle.go:43-44 | an address right-aligned in its word is its number as a word |
| `Merkle.PutAmounts` | merkle/merkle.go:46-51 | the five amounts in turn, or the first that does not fit |
| `Merkle.ErrorIffNotEncodable` | merkle/merkle.go:36-76 | encoding fails exactly when some number is not a uint256, naming the first and whether it is nil, negative or too wide |
| `Merkle.SmallerFirst` | merkle/tree.go:112-118 | of two hashes the smaller number is hashed first, whichever side it stands on |
| `Merkle.EncodedWords` | merkle/merkle.go:36-54 | seven big-endian words of 32 bytes: the id, the account and the five amounts in token order |
| `Merkle.PairUnordered` | merkle/tree.go:112-118 | the pair hash does not see sides |
| `Merkle.PairInjective` | merkle/tree.go:112-118 | the bytes of a pair come from one unordered pair |
| `Bytes.CompareIsNumeric` | merkle/tree.go:48-51 | bytes.Compare orders hashes as the numbers they spell |
| `Alloc.Allocate` | internal/alloc/compute.go:93-150 | the allocation the rules make; else the first nil or negative amount, or the first claim that does not encode and why; it succeeds exactly when all is payable and all encode |
| `Alloc.AllocationConserves` | internal/alloc/compute.go:120-136 | per token totals and carryOut are funding and carryIn; totals are the sums over all Holders and over the kept rows; 0 <= carryOut <= n-1 |
| `Alloc.DustBound` | internal/alloc/compute.go:106-118 | floors never exceed what there is and leave less than one unit a Holder |
| `Alloc.FloorsAccount` | internal/alloc/compute.go:106-118 | shares and remainders account for base times the weights |
| `Alloc.OmissionKeepsTotals` | internal/alloc/compute.go:120-132 | omission changes no total |
| `Alloc.TreeIffPaid` | internal/alloc/compute.go:120-147 | there is a Root exactly when some total is positive, and the rows kept are exactly those paid something, at unchanged amounts |
| `Alloc.AlwaysEncodable` | internal/alloc/compute.go:142-147 | with every base below 2^256 no claim fails to encode, so Allocate never refuses |
| `Alloc.MultiplierByHold` | internal/alloc/streak.go:30-51 | in seconds held since the later of first receipt and last send, exactly when each Multiplier applies |
| `Alloc.RowsAreDue` | internal/alloc/compute.go:93-176 | every Holder's row is its due: the dev wallet at 10000, anyone else by seconds held; weight is average times Multiplier; of every token the most whole units within its share of the sum of all weights |
| `Alloc.AllocationIsDue` | internal/alloc/compute.go:93-176 | an allocation keeps exactly the rows paid something, by ascending address, each its Holder's due |
| `Alloc.LongerHoldNoLess` | internal/alloc/streak.go:30-51 | of two Holders with one average, neither the dev wallet, the one that held longer gets no less of any token |
| `Alloc.DevWalletIsFlat` | testdata/cases/dev-wallet-flat.json:1-80 | two Holders of 100 with a 41-day streak share 250 as 100 to the dev wallet and 150 to the other |
| `Alloc.ClaimPays` | internal/alloc/compute.go:180-193 | a claim of the tree is its row's account paid its row's amounts, token by token, under the Epoch's id |
| `Alloc.Weigh` | internal/alloc/compute.go:153-176 | one row a Holder with its Multiplier, the dev wallet at base, and W the sum of the weights |
| `Alloc.Fill` | internal/alloc/compute.go:112-118 | every row the floor of its share of every token |
| `Alloc.Omit` | internal/alloc/compute.go:120-132 | the rows with some amount, in order, and the totals over every row |
| `Alloc.Subtract` | internal/alloc/compute.go:134-136 | what totals leave of the base |
| `Alloc.Base` | internal/alloc/compute.go:203-218 | funding plus carryIn, or the first amount that is nil or negative, token by token and funding first |
| `Reader.ReadLogs` | chain/reader.go:563-609 | in order, in range and of the filter whatever endpoints do; the chain's logs exactly with one honest endpoint among them; always returned when all are willing; a page too big is asked again at half the span, and any other failure, or one at span 1, ends the read as its very error; few are refused |
| `Reader.TraceWithin` | chain/reader.go:566-606 | no request leaves the range or is wider than the opening span |
| `Reader.Page` | chain/reader.go:577-590 | one page is what any honest endpoint says; it comes back only when every endpoint gave the same set, and does when all give one set of logs with places of their own |
| `Reader.CrossCheck` | chain/reader.go:701-741 | succeeds exactly when all answer and agree in canonical form; else the first failure in the order answers arrive, or one that differs from the first |
| `Reader.GetLogs` | chain/reader.go:949-996 | passes a page exactly when every log is of the filter and the range, sorted |
| `Reader.AskEach` | chain/reader.go:715-727 | each endpoint asked once, its answer checked |
| `Reader.PagesJoin` | chain/reader.go:563-606 | two adjoining pages are one page |
| `Reader.HonestPage` | chain/reader.go:949-996 | a chain's page in any order sorts to the page |
| `Logs.CanonicalInjective` | chain/rpc.go:510-526 | two pages with equal canonical bytes are one page |
| `Logs.LogReadsOneWay` | chain/rpc.go:510-526 | a log is read off the front of a string in one way only |
| `Logs.CanonicalLogs` | chain/rpc.go:510-526 | builds the canonical form of the page |
| `Logs.AppendLog` | chain/rpc.go:512-523 | appends one log's bytes |
| `Logs.AppendUint64` | chain/rpc.go:528-536 | appends n big-endian in eight bytes |
| `Logs.OrderDoesNotMatter` | chain/rpc.go:540-548 | pages that differ only in order sort to one list |
| `Ranges.InSplit` | chain/reader.go:563-606 | two adjoining ranges of blocks hold what one range does |
| `Logs.SortLogs` | chain/rpc.go:540-548 | the page in (block, index) order |
| `EndBlock.EndBlock` | chain/reader.go:510-553 | not closed exactly when the tip is before the close; else a block before the close with the next one past it, the last before the close when timestamps do not decrease |
| `EndBlock.EndBlockSuffices` | epoch/engine.go:250-252 | closing an Epoch over everything through the tip comes to what it comes to over the blocks through its end block, Excluded set included |
| `EndBlock.SameBefore` | internal/twab/replay.go:79-83 | cutting a history at the end block cuts nothing below the close |
| `Roots.SearchBack` | epoch/roots.go:169-205 | finds what one newest-first scan of the whole stream finds; pages adjoin from the tip back, each reaching back 40000 blocks doubled once a page, at most 49 of them; no uint64 wraps |
| `Roots.ScanPage` | epoch/roots.go:185-194 | one page scanned newest first, the bound lowered as it goes |
| `Roots.ScanSplit` | epoch/roots.go:169-205 | scanning a newer stretch and resuming over the older one is one scan |
| `Roots.Widens` | epoch/roots.go:200-203 | a span that must be doubled still fits a uint64 |
| `Roots.PreviousRoot` | epoch/roots.go:126-145 | the first log, newest first, below a bound that falls to each log that does not stand; one whose Root the book has posted, for an Epoch below target |
| `Roots.PreviousIsFound` | epoch/roots.go:126-145 | in an orderly stream that log is the standing Root of the highest Epoch below target |
| `Roots.PreviousIffOrderly` | epoch/roots.go:126-145 | the search is right for every target if and only if nothing was logged for an Epoch after the standing Root of a later one |
| `Roots.Latest` | epoch/roots.go:149-165 | the Epoch of the newest log that stands, or none exactly when none does |
| `Roots.StandingIsOnBook` | epoch/roots.go:67-79 | what stands is an Epoch log whose Root the book has posted; with rootPostedAt 0 nothing stands |
| `Roots.StandingRoots` | epoch/roots.go:210-234 | maps exactly the Epochs of the range whose last log stands to that log, each with its Root posted on the book |
| `Roots.StandingRoot` | epoch/roots.go:82-116 | what it returns is the Epoch's standing Root; it succeeds exactly when the blocks sought hold the log of the Root in the book, and else says how they disagree; an entry whose rootPostedAt is 0 has no Root |
| `Roots.LastInRange` | epoch/roots.go:82-116 | in blocks through the tip the last log for an Epoch is its last log altogether |
| `Roots.LastKeptInRange` | epoch/roots.go:82-116 | a range that has the last log for an Epoch has it last |
| `Roots.FoundStands` | epoch/roots.go:126-145 | what a scan finds is a log of an Epoch Root the book holds |
| `Roots.Book.Ledger` | epoch/roots.go:35-47 | the Distributor's entry, memoized or not |
| `Roots.Book.AddFunding` | epoch/roots.go:50-62 | carry plus the Epoch's funding, token by token |
| `Roots.Book.StandsFor` | epoch/roots.go:67-74 | whether the book still holds the Root the log posted |
| `Engine.WalkAndCompute` | epoch/engine.go:394-491 | Walk succeeds exactly when the chain has a walk to the Epoch, returns that walk, and Compute on the same Engine then gives its last Result, whole |
| `Engine.ComputeLinks` | epoch/engine.go:447-477 | with Roots posted after their Epochs close, Compute on the same Engine succeeds for every earlier link and equals it but for the end block |
| `Engine.WalkWhenClear` | epoch/engine.go:430-491 | with the Epoch closed at the tip and not before deploy, its Root served, the history accepted and no sum past uint256, Walk succeeds |
| `Engine.NothingToRefuse` | epoch/engine.go:394-491 | then no cause of refusal is left, for Walk or for Compute |
| `Carry.WalkEndsInCompute` | epoch/engine.go:394-491 | the last Result of any Walk equals any Compute of its Epoch |
| `Carry.LinksAreComputes` | epoch/engine.go:447-477 | each earlier link equals any Compute of its Epoch but for the end block |
| `Carry.LinkIsComputed` | epoch/engine.go:447-477 | each earlier link, with the end block of its Epoch, meets everything a Compute promises when its Root is served after that block |
| `Carry.AfterCloseIsServed` | epoch/roots.go:82-116 | a standing Root posted after its Epoch's end block is found there |
| `Carry.EndExists` | chain/reader.go:510-553 | an Epoch that closes between block 0 and the tip has an end block |
| `Carry.SameRolled` | epoch/engine.go:453-478 | any two walks that reach an Epoch carry the same there |
| `Carry.LinkCan` | epoch/engine.go:470-477 | every rooted Epoch a walk passed can be rebuilt over its posted carryIn |
| `Carry.WalkIsComputed` | epoch/engine.go:430-491 | the last Result of a Walk meets everything a Compute promises |
| `Carry.ExpectedIsRolled` | epoch/engine.go:493-540 | what Compute expects of an Epoch is what a Walk carries there, with the same provenance |
| `Carry.RolledIsExpected` | epoch/engine.go:493-540 | what a Walk carries to an Epoch is what Compute would expect of it |
| `Carry.LastIsPrevious` | epoch/roots.go:118-145 | the last link before an Epoch is its previous standing Root |
| `Carry.WalkConserves` | epoch/engine.go:453-490 | per token all totals and the last carryOut are all funding since deploy and what posted carryIns overstate |
| `Carry.HonestWalkConserves` | epoch/engine.go:453-490 | when every posted carryIn is the expected one nothing is made or lost, and totals never exceed funding |
| `Carry.ResultIsDue` | epoch/engine.go:556-601 | a Result pays each Holder of its Epoch its due of the funding and of the posted carryIn, or the expected one, and its Root is of exactly those rows |
| `Carry.DeployFundingCarried` | epoch/roots.go:236-253 | while no Root stands, an Epoch is expected to carry all funding from the deploy's Epoch on; the next one just what the deploy's was funded with |
| `Carry.ResultConserves` | epoch/engine.go:556-601 | a Result conserves per token and neither totals nor carryOut is negative |
| `Carry.SameInputs` | epoch/engine.go:556-618 | an Epoch computed over one carryIn is computed one way whatever was expected |
| `Carry.ExpectedOnce` | epoch/engine.go:493-523 | one carry and one source are expected of an Epoch |
| `Carry.RootedStep` | epoch/engine.go:470-477 | a rooted Epoch adds one link and the carry starts again from its carryOut |
| `Carry.UnrootedStep` | epoch/engine.go:459-468 | an Epoch without a Root adds its funding and no link |
| `Engine.Engine.Holders` | epoch/engine.go:298-310 | Replay's outcome if and only if the Ledger held was not already refused for something past the Epoch asked about |
| `Engine.InAnyOrder` | epoch/engine.go:294-310 | over a history accepted through each Epoch asked about, any order and any repeats give Replay's Holders |
| `Engine.AfterARefusal` | epoch/engine.go:298-310 | after refusing a late Epoch the Engine refuses an earlier one Replay accepts |
| `Engine.RefusalExample` | epoch/engine.go:298-310 | a one-transfer history that is accepted for Epoch 0 and not for Epoch 1 |
| `Engine.Engine.CloseHeld` | epoch/engine.go:303-310 | the outcome of the history unless the Ledger was refused for something later; the floor moves on success alone |
| `Engine.Engine.Rebuild` | epoch/engine.go:556-618 | the Result the rules make over the posted or expected carryIn; it fails only for the fault of the history, dated before the close on an Engine not refused before, or a claim that does not encode over a sum past uint256, and not at all on such an Engine when a Result exists |
| `Engine.Engine.Compute` | epoch/engine.go:394-421 | end block, expected carryIn, standing Root and Result all as the chain has them; every refusal has its cause, over the carryIn of its own standing Root or the expected one, or of the previous standing Root for its Epoch; succeeds whenever such a Result exists and the Engine has not been refused |
| `Engine.Engine.Walk` | epoch/engine.go:430-491 | one link for every rooted Epoch since deploy, each expected to carry what the ones before leave, and the target last; every refusal has its cause, over a posted carryIn or the one rolled to the target, from deploy on; succeeds whenever such a walk exists and the Engine has not been refused |
| `Engine.Engine.WalkLinks` | epoch/engine.go:453-478 | the links before the target and the carry they leave, whenever there are such links and the Engine has not been refused; else a refusal with its cause |
| `Engine.Engine.ExpectedCarry` | epoch/engine.go:496-523 | what the target should have been posted with, whenever the chain has it and the Engine has not been refused; else a refusal with its cause |
| `Engine.Engine.CarryOver` | epoch/engine.go:527-540 | carry with the funding of every Epoch passed, counted |
| `Engine.Engine.DeployEpoch` | epoch/roots.go:239-253 | the Epoch whose 3600 seconds the deploy block is stamped in, memoized or not |
| `Engine.Engine.constructor` | epoch/engine.go:89-120 | no Ledger yet, and neither the deploy Epoch nor any entry of the book read |
| `Report.AssessResult` | cmd/nutz-verify/recompute.go:95-110 | for a Result of the Engine: with a Root posted MATCH exactly when Root, totals and expected carryIn are the posted ones; with only an Expectation exactly when the recomputed Root exists and is it; the cap follows, and each line fails for its own difference |
| `Report.MatchBinds` | internal/report/assess.go:290-300 | under a posted Root that matched, a claim that verifies pays the account of some row its amounts token by token, the rows being the Holders' dues, or two hashed strings collide |
| `Report.Assess` | internal/report/assess.go:157-196 | MATCH, MISMATCH and INDETERMINATE each exactly when they should be, a nil amount differing from everything; every line in order and exactly when it passes, fails or does not apply; MATCH exactly when no line fails |
| `Report.AssessPosted` | internal/report/assess.go:198-205 | each of the four lines fails exactly when its own comparison does, and MATCH when none does |
| `Report.AssessExpected` | internal/report/assess.go:213-238 | MATCH exactly when the recomputed Root is the Expectation and the cap holds; every line as it should be |
| `Report.AssessSkipped` | internal/report/assess.go:259-276 | MATCH exactly when there is no Root to post; Root and totals fail together and the rest do not apply |
| `Report.WithExpected` | internal/report/assess.go:247-249 | one more line, and the Verdict judged again |
| `Report.FromAssertions` | internal/report/assess.go:279-288 | MATCH exactly when no line fails |
| `Report.AssertCapOver` | internal/report/assess.go:322-333 | passes exactly when totals are within funding and carryIn in every token |
| `Report.AssertSame` | internal/report/assess.go:302-310 | passes exactly when nothing is nil and nothing differs |
| `Report.FirstDifference` | internal/report/assess.go:348-356 | the first token that is nil or differs, or none exactly when there is none |
| `Report.AlwaysWithinCap` | internal/report/assess.go:312-333 | what the Engine allocates is within the cap of what it computed over |
| `Report.Worst` | internal/report/assess.go:51-63 | INDETERMINATE if any is, MATCH only if all are, and an exit code no lower than any of theirs |

## Left out

- Ledger.Ledger.Advance: Epochs whose closing instant an int64 cannot hold, as `internal/twab/twab.go:22-25` leaves to callers.
- Cache.Cache.Sync: the chain it reads is one view for the length of the call.
- Following.SyncAll: tips below 2^64 - 1, above which nothing is checked (`Following.AtTheTopIff`); damage that no scan can see may leave part of a block (`Following.Reopen`).
- Cache.Cache.Flush: one write that succeeds; write errors, partial writes, fsync and the buffered writer spilling early are not modelled.
- Cache.Open: the header, its checksum, directories and the lock file; the file here is the bytes after the header.
- Cache.FirstWhere: library binary search is written out as a loop.
- Reader.CrossCheck: the order in which the answers arrive is a parameter; cancellation of the rest is not modelled.
- Reader.ReadLogs: the phrases that mean "too big" are one kind of complaint; logs marked removed and logs that do not parse are complaints of the endpoint.
- Engine.Engine.constructor: the refusals of New, for a missing Reader or Cache directory and for a Reader and a Deployment that name different contracts.
- Engine.Engine.Compute: reads of the chain succeed or the call fails with their error; only the errors of the Engine's own are modelled. The history and exclusions are those of `load`, the curve entry included, already read (`Feed.LoadHistory`).
- Engine.Engine.Rebuild: a Result holds its tree as its Root; node indexes of rows are `Tree.Tree.TreeIndex`.
- Ledger.Ledger.CloseNext: moves the place in the history once, when an Epoch closes, and not after each block; a Ledger that fails between the two never reads it again.
- Replay.ReplayState.Open: the source compacts the active list inside its backing array; here it is a new sequence.
- Replay.Standing.AccrueTo: the scratch integer reused between calls.
- Sorting.SortBy: Go's library sorts, as a stable insertion sort; where `slices.SortFunc` promises no order, among equal keys, the model fixes the arrival order. Pages with distinct places and Holders with distinct addresses have no such ties.
- Alloc.Allocate: the claims slice's aliasing with the rows; the values are the same.
- Report.Assess: the wording of lines; only their names and statuses.
- HTTP, JSON, batching, retries, pacing, endpoint labels, hex and ABI event decoding.
- The chain head and its reconciliation of tips, block header batches, their comparison form.
- Keccak-256 and CRC32C themselves, and any claim that a checksum tells all damage apart.
- Command line, text and JSON rendering, artifact comparison, Deployment constants, progress lines.
- Goroutine pools and contexts.
