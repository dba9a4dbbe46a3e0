# Verified cores of a Binarium node

Binarium is a node of the Dash and Bitcoin family. This project models the parts of it whose
correctness rests on invariants that span several data structures, several threads or several
nodes, and proves what their documentation promises.

- **Address manager** (`AddrMan*.dfy`). Ids, addresses, a random order and two bucket tables are
  cross-linked, with reference counts. From the constructor, every sequence of additions,
  promotions, attempts, connections and queries keeps the structures consistent, whatever the
  times; with times as the clock gives them it keeps the whole consistency check of the source. A
  manager that is written to a stream and read back is the same up to renumbering, and a stream of
  another layout loses only entries whose home cell is taken.
- **InstantSend** (`InstantSend*.dfy`). Ten masternodes are ranked per outpoint and six votes lock
  it. On one node no second transaction ever becomes ready on a locked outpoint, whatever the votes;
  on a network with at most one lying member per quorum no two nodes lock different transactions.
  And six unopposed votes for every input do lock a transaction, in whatever order they arrive.
- **Coin caches** (`Coins*.dfy`). Any stack of write-back caches with DIRTY and FRESH flags shows, at
  every level, the coins of plain maps; memory accounting is exact and value is conserved.
- **Check queue** (`CheckQueue*.dfy`). A state machine of one master and any number of workers. In
  every interleaving Wait answers true exactly when all checks pass, and it does return. The
  notifications of Add are enough for the workers to finish everything before Wait is called.
- **256-bit arithmetic and compact targets** (`Limb*.dfy`, `ArithUint.dfy`, `Compact*.dfy`,
  `Powers.dfy`). Limb loops against numbers, and the rounding of the compact form.
- **Base58** (`Base58*.dfy`), **mnemonics** (`Bip39*.dfy`, `Bits.dfy`), the **skip-list chain index**
  (`Chain*.dfy`, with a bound on its walks), **bloom filters** (`Bloom*.dfy`) and **bounded caches** (`Cache*.dfy`).
- `Common.dfy` has the types that several parts share.

Each part has value-level definitions with the theorems about them, and beside them a class whose
methods update fields and arrays in place as the source does and are proved equal to those
definitions. The modules `*Effects`, `CheckQueueWakes`, `BloomRules` and `Base58Blanks` say what single
calls do and when, in terms of the data alone; the others have the invariants and the theorems about
runs. `dafny verify dfyconfig.toml` checks everything.

What the outside world decides is a parameter: hash functions, the clock, random draws, the
masternode ranking, signature checks, mempool and UTXO lookups, the interleaving of threads and the
scheduler's choice of a thread to wake. Where the order in which the source iterates a container does
not matter, the model takes any order.

Where the code and its comments or the properties one would expect disagree:

- `CAddrMan` does not write `nLastTry`, so a reloaded entry differs from the original in that field
  (`AddrManStream.Unserialize`).
- `Good` with a time that is not positive leaves a manager that `Check_` refuses, exactly if the
  address is known (`AddrManTimes.GoodTimed`, `AddrManTimes.GoodAtZero`).
- `SpendCoin` has, as its comment promises, no effect on any view when there is no unspent coin
  (`CoinsOps.SpendNoEffect`), but it then still returns true if its cache holds the coin as spent
  (`CoinsOps.SpendOk`, `CoinsOps.SpendOnSpent`).
- `Flush` copies the best block of a cache that never looked one up, a null hash, over that of its
  parent cache. `CoinsRuns.FlushBest` says exactly when the best block survives and
  `CoinsRuns.FlushLosesBest` gives a stack on which it does not.
- A number multiplied by itself through `operator*=` becomes zero (`ArithUint.BaseUint.Multiply`,
  `ArithUint.SquareOfThree`).
- `FromData` accepts 20 and 28 bytes, whose mnemonics `Check` refuses
  (`Bip39Model.FromDataAccepted`, `Bip39Model.TwentyBytesRefused`).
- In a bloom filter without hash functions `UpdateEmptyFull` can forget what was inserted
  (`BloomModel.UpdateAfterInsert`, `BloomModel.UpdateForgets`).
- `CacheMultiMap::Insert` evicts the oldest pair of a full cache even when the new pair is a
  duplicate (`CacheModel.DuplicateKept` says exactly when nothing is lost, `CacheModel.DuplicateEvicts`
  gives a loss), and a size limit of zero is exceeded by the first insertion
  (`CacheModel.InsertBound`).
- `GetLocator` calls the skip list O(log n). A walk over heights below 2^b takes at most
  b(b - 1) + 1 steps (`ChainSteps.WalkBound`), and there are walks whose number of steps grows with
  the square of b (`ChainSteps.WalkLong`).

## Model

| member | source | states |
|---|---|---|
| `AddrManModel.SwapRandomKeeps` | src/addrman.cpp:99-117 | swapping two places of the random order keeps the whole consistency condition, also in the middle of an operation |
| `AddrManModel.CreateKeeps` | src/addrman.cpp:87-97 | a new entry without references keeps consistency except that it is in limbo |
| `AddrManModel.DeleteKeeps` | src/addrman.cpp:119-131 | deleting a loose entry keeps consistency and removes that entry alone |
| `AddrManOps.ClearNewKeeps` | src/addrman.cpp:133-146 | clearing a new-table cell keeps every reference count exact and deletes the entry with its last reference |
| `AddrManOps.MoveToNewKeeps` | src/addrman.cpp:167-188 | evicting a tried entry back to the new table keeps consistency |
| `AddrManOps.MakeTriedKeeps` | src/addrman.cpp:148-194 | moving an entry to tried, with eviction and collision, restores the whole invariant |
| `AddrManOps.GoodKeeps` | src/addrman.cpp:196-243 | Good keeps the whole invariant, whatever the time |
| `AddrManOps.StatisticsKeep` | src/addrman.cpp:313-330 | updates of times, attempts and services keep the invariant |
| `AddrManOps.PlaceKeeps` | src/addrman.cpp:289-309 | placing an entry in a new bucket, overwriting or giving up, keeps the invariant |
| `AddrManOps.AddKeeps` | src/addrman.cpp:245-311 | Add keeps the whole invariant for every address, known or not |
| `AddrManRuns.GatherKeeps` | src/addrman.cpp:465-484 | the shuffle of GetAddr keeps the invariant and changes only places in the random order |
| `AddrManRuns.GetAddrMeaning` | src/addrman.cpp:465-484 | the answer lists distinct known entries that are not terrible, within both limits, and all of them when it stays below the limit |
| `AddrManRuns.MoveToNewMeaning` | src/addrman.cpp:167-188 | the evicted entry ends in its own new slot with one reference; only the occupant of that slot can be lost, and only with its last reference |
| `AddrManRuns.MakeTriedMeaning` | src/addrman.cpp:148-194 | the entry ends in its tried slot with its statistics, a displaced entry survives in the new table, nothing else is forgotten |
| `AddrManRuns.GoodMeaning` | src/addrman.cpp:196-243 | a known exact address ends in tried with the given times; an unknown one changes nothing |
| `AddrManRuns.NewEntryLinked` | src/addrman.cpp:222-237 | an entry that is not tried always has a bucket, so the bail-out of Good is unreachable |
| `AddrManRuns.PlaceMeaning` | src/addrman.cpp:289-309 | a new entry stays exactly if its slot is free or its occupant may be overwritten; others are lost only if terrible |
| `AddrManRuns.AddMeaning` | src/addrman.cpp:245-311 | Add is true exactly for a routable unknown address, and that address is stored exactly under the slot condition |
| `AddrManEffects.AddKnown` | src/addrman.cpp:253-303 | a known entry gets the joined services and the refreshed time, and the cell for the source with one more reference exactly if it is untried, has room, the news is newer, the draw allows it and the cell is free or its occupant terrible; otherwise no cell changes, and nothing else changes in either case |
| `AddrManEffects.AddUnknown` | src/addrman.cpp:282-309 | a newcomer is stored exactly if its cell is free, terrible or held by an entry with other cells; it then has the announced data, the reduced time and empty statistics, and only the displaced entry loses a reference |
| `AddrManEffects.AddUnroutable` | src/addrman.cpp:247-248 | an unroutable address changes nothing |
| `AddrManEffects.PlaceEffect` | src/addrman.cpp:287-309 | the cell, the count and the displaced entry after placing, or nothing at all |
| `AddrManEffects.MakeTriedEffect` | src/addrman.cpp:148-194 | the whole of both tables afterwards: the entry in its tried cell without references, the displaced one in its home cell, all others unchanged |
| `AddrManEffects.GoodEffect` | src/addrman.cpp:196-243 | Good on the entry with this address and port sets its statistics and does only that or the move to tried |
| `AddrManEffects.UnknownIgnored` | src/addrman.cpp:196-522 | no call about an unknown address and port changes anything |
| `AddrManEffects.StatisticsEffect` | src/addrman.cpp:313-522 | Attempt, Connected and SetServices change exactly their fields of the one entry, Connected only after twenty minutes |
| `AddrManEffects.TerribleExactly` | src/addrman.cpp:32-50 | when an entry is terrible, in seconds |
| `AddrManEffects.FailuresTurnTerrible` | src/addrman.cpp:32-50 | attempts without a success make an entry terrible exactly from the third on and after a minute |
| `AddrManEffects.GoodRedeems` | src/addrman.cpp:196-243 | after a success an entry with a sensible time is not terrible |
| `AddrManEffects.GetAddrAny` | src/addrman.cpp:465-484 | any arrangement of distinct worthwhile entries within both limits can come out |
| `AddrManRuns.StepKeeps` | src/addrman.cpp:387-463 | every operation, with any times, keeps everything the consistency check says about the structures |
| `AddrManRuns.Run` | src/addrman.cpp:387-463 | so does every run from the constructor, and nNew + nTried stays the number of entries |
| `AddrManTimes.GoodTimed` | src/addrman.cpp:196-243 | Good keeps the time conditions of the check exactly if its time is positive or the address unknown |
| `AddrManTimes.GoodAtZero` | src/addrman.cpp:196-243 | on a known address time zero breaks them |
| `AddrManTimes.AttemptTimed` | src/addrman.cpp:313-330 | Attempt keeps them exactly if its time is not negative or the address unknown |
| `AddrManTimes.AddTimed` | src/addrman.cpp:245-311 | Add keeps them for any times |
| `AddrManTimes.StepChecked` | src/addrman.cpp:387-463 | with times from a clock every operation keeps the whole check, key and times included |
| `AddrManTimes.RunChecked` | src/addrman.cpp:387-463 | and so does every such run from the constructor |
| `AddrManRuns.InitConsistent` | src/addrman.h:437-460 | the constructed manager is consistent |
| `AddrManRuns.SizesAgree` | src/addrman.cpp:393-394 | consistency implies that the sizes of the structures agree |
| `AddrMan.Manager.constructor` | src/addrman.h:437-460 | the tables start empty and consistent |
| `AddrMan.Manager.SwapRandom` | src/addrman.cpp:99-117 | the in-place swap is the specified one |
| `AddrMan.Manager.Delete` | src/addrman.cpp:119-131 | the in-place deletion is the specified one |
| `AddrMan.Manager.ClearNew` | src/addrman.cpp:133-146 | the in-place clearing of a cell is the specified one |
| `AddrMan.Manager.LeaveNew` | src/addrman.cpp:150-160 | the loop over all buckets removes every reference of the entry |
| `AddrMan.Manager.ReturnToNew` | src/addrman.cpp:167-188 | the displaced tried entry is moved as specified |
| `AddrMan.Manager.MakeTried` | src/addrman.cpp:148-194 | the tables after the loops are those of the specification, and its assertions hold |
| `AddrMan.Manager.FindNewBucket` | src/addrman.cpp:222-232 | the search from a random bucket finds a cell of the entry |
| `AddrMan.Manager.Good` | src/addrman.cpp:196-243 | the method refines the specified Good |
| `AddrMan.Manager.Attempt` | src/addrman.cpp:313-330 | the method refines the specified Attempt |
| `AddrMan.Manager.Connected` | src/addrman.cpp:486-504 | the method refines the specified Connected |
| `AddrMan.Manager.SetServices` | src/addrman.cpp:506-522 | the method refines the specified SetServices |
| `AddrMan.Manager.Place` | src/addrman.cpp:289-309 | the method refines the specified placing |
| `AddrMan.Manager.Refresh` | src/addrman.cpp:254-281 | the update of a known address refines its specification |
| `AddrMan.Manager.Add` | src/addrman.cpp:245-311 | the method refines the specified Add |
| `AddrMan.Manager.GetAddr` | src/addrman.cpp:465-484 | the loop refines the specified shuffle and selection |
| `AddrManStream.Serialize` | src/addrman.h:284-332 | the stream is the specified one: header, new entries, tried entries, buckets with renumbered ids |
| `AddrManStream.FlipBit30Exactly` | src/addrman.h:351-353 | the format mark flips bit 30 alone, and twice restores |
| `AddrManStream.OrderNumbers` | src/addrman.h:298-317 | the two loops number all entries without gaps, new ones first |
| `AddrManStream.Unserialize` | src/addrman.h:334-430 | reading what any consistent manager wrote succeeds and restores every entry, cell and count up to renumbering; entries of a consistent manager in any layout give a consistent manager, and a foreign layout keeps every tried entry and exactly those others that hold their home cell |
| `AddrManStream.HomedLoose` | src/addrman.h:355-394 | after the entries are read, in any layout, the tables are consistent but for the entries without a cell |
| `AddrManStream.LooseLink` | src/addrman.h:396-412 | every link made while the buckets are read keeps that |
| `AddrManStream.HomedRecovered` | src/addrman.h:362-371 | in a foreign layout every home cell is taken, and an untried entry survives exactly if it is the one there |
| `AddrManStream.RestoredConsistent` | src/addrman.h:334-430 | a renumbered copy of consistent tables is consistent |
| `AddrManStream.LinkedRestored` | src/addrman.h:396-412 | once all buckets are read every reference count is rebuilt exactly, so none is pruned |
| `AddrManStream.Prune` | src/addrman.h:414-425 | exactly the entries without a cell are forgotten, which makes loosely linked tables consistent |
| `AddrManStream.Reload` | src/addrman.h:284-430 | writing a manager and reading it into a fresh one restores it |
| `InstantSendModel.MajoritiesMeet` | src/instantx.h:209-210 | two sets of six among ten share at least two members |
| `InstantSendModel.LockExcludes` | src/instantx.h:222-224 | a voter on two candidates for an outpoint marks both, so only one can be ready |
| `InstantSendOps.CreateCandidateKeeps` | src/instantx.cpp:134-170 | creating or completing a candidate keeps the node invariant |
| `InstantSendOps.TryToFinalizeKeeps` | src/instantx.cpp:475-545 | locking the inputs of a ready candidate keeps the node invariant |
| `InstantSendEffects.FinalizeLocks` | src/instantx.cpp:475-629 | inputs are locked exactly if enabled, every outpoint has six unmarked votes, no rival is in the mempool, and the transaction is mined or its coins are there; nothing else changes |
| `InstantSendOps.ProcessRequestKeeps` | src/instantx.cpp:87-132 | a lock request keeps the node invariant |
| `InstantSendOps.NoteVoteKeeps` | src/instantx.cpp:378-408 | recording a vote marks every rival candidate the masternode voted for, and the candidate itself |
| `InstantSendOps.PutVoteKeeps` | src/instantx.cpp:1108-1162 | adding a vote keeps the node invariant |
| `InstantSendOps.ProcessVoteKeeps` | src/instantx.cpp:295-423 | a received vote keeps the node invariant, also as an orphan |
| `InstantSendEffects.VoteRefused` | src/instantx.cpp:308-360 | an invalid or late vote changes nothing |
| `InstantSendEffects.VoteRecorded` | src/instantx.cpp:357-422 | a vote joins the votes on its outpoint, marks exactly the two sides of a double vote, and locks the transaction exactly if it completes it |
| `InstantSendEffects.LastVoteLocks` | src/instantx.cpp:402-422 | the vote that completes the last outpoint locks the transaction |
| `InstantSendEffects.EnoughVotesLock` | src/instantx.cpp:295-545 | six unopposed votes per input lock a transaction, in any order and with any of them there before |
| `InstantSendEffects.EarlyVotesLock` | src/instantx.cpp:425-442 | so do votes that came before the request, once they are processed again |
| `InstantSendEffects.RequestOpens` | src/instantx.cpp:87-170 | the first valid request opens a lock per input, a late one none, a repeated one only retries the lock |
| `InstantSendEffects.EarlyVoteWaits` | src/instantx.cpp:320-354 | a vote without a request waits, and the request is processed once six wait for every input |
| `InstantSendEffects.CastExactly` | src/instantx.cpp:181-292 | exactly the votes that are due are cast and recorded, and lock the transaction if they complete it |
| `InstantSendEffects.CastNone` | src/instantx.cpp:193-203 | without masternode, spork or accepted request nothing is cast |
| `InstantSendOps.CastVotesKeeps` | src/instantx.cpp:193-292 | voting oneself keeps the node invariant |
| `InstantSendNetwork.NodeStepKeeps` | src/instantx.cpp:49-85 | every message and every own vote keeps the node invariant |
| `InstantSendNetwork.NodeStepGrew` | src/instantx.cpp:193-292 | a step only adds votes and locks, and a new own vote is on an outpoint not voted on before |
| `InstantSendNetwork.RunNode` | src/instantx.cpp:49-545 | every run of one node keeps the invariant |
| `InstantSendNetwork.NoConflict` | src/instantx.cpp:556-600 | a ready candidate has no input locked by another transaction, so that branch of ResolveConflicts is unreachable |
| `InstantSendNetwork.NodeSafety` | src/instantx.cpp:475-600 | in every run with any number of double voters a locked outpoint excludes readiness of every rival, and a lock covers all inputs of its transaction |
| `InstantSendNetwork.WorldStepKeeps` | src/instantx.cpp:193-423 | every step of every node and every forged vote of a liar keeps the network invariant |
| `InstantSendNetwork.LocksAgree` | src/instantx.cpp:528-545 | with at most one liar per quorum two nodes never hold different locks |
| `InstantSendNetwork.LocksStay` | src/instantx.cpp:528-545 | a lock is never changed later in the run |
| `InstantSendNetwork.NetworkSafety` | src/instantx.cpp:193-545 | locks of any two nodes at any two times of a run agree |
| `InstantSend.InstantSendNode.AllReady` | src/instantx.cpp:1164-1174 | the loop decides whether every outpoint lock is ready |
| `InstantSend.InstantSendNode.IsLockedTx` | src/instantx.cpp:787-810 | the loop decides whether all inputs are locked by the transaction |
| `InstantSend.InstantSendNode.CreateTxLockCandidate` | src/instantx.cpp:134-170 | the maps after it are the specified ones |
| `InstantSend.InstantSendNode.ResolveConflicts` | src/instantx.cpp:556-629 | the loop finds exactly the specified conflicts |
| `InstantSend.InstantSendNode.LockTransactionInputs` | src/instantx.cpp:528-545 | all outpoints of the candidate are locked, and nothing else changes |
| `InstantSend.InstantSendNode.TryToFinalizeLockCandidate` | src/instantx.cpp:475-495 | the method refines its specification |
| `InstantSend.InstantSendNode.ProcessTxLockRequest` | src/instantx.cpp:87-132 | the method refines its specification |
| `InstantSend.InstantSendNode.IsEnoughOrphanVotesForTx` | src/instantx.cpp:444-455 | the loop decides whether every input has six orphan voters |
| `InstantSend.InstantSendNode.EnoughOrphansFor` | src/instantx.cpp:457-473 | the loop counts distinct masternodes with an orphan vote |
| `InstantSend.InstantSendNode.ProcessTxLockVote` | src/instantx.cpp:295-423 | the method refines its specification, with double votes marked |
| `InstantSend.InstantSendNode.MarkDoubleVotes` | src/instantx.cpp:378-401 | all rival candidates of a double voter, and the candidate itself, are marked attacked on the outpoint |
| `InstantSend.InstantSendNode.VoteOn` | src/instantx.cpp:199-291 | one outpoint of the voting loop refines its specification |
| `InstantSend.InstantSendNode.CastVotes` | src/instantx.cpp:181-292 | the loop votes on every outpoint of the candidate once, in some order, as specified |
| `InstantSend.InstantSendNode.ProcessOrphanTxLockVotes` | src/instantx.cpp:425-442 | every orphan vote is processed again once, in some order, as specified |
| `CoinsModel.Flat` | src/coins.cpp:58-65 | all visible coins of a stack form one map that answers every lookup |
| `CoinsOps.FetchView` | src/coins.cpp:41-56 | fetching changes no view at any level |
| `CoinsOps.FetchOk` | src/coins.cpp:41-56 | fetching keeps flags and accounting right and caches the visible coin |
| `CoinsOps.AddOk` | src/coins.cpp:67-86 | the coin becomes visible unless unspendable, and FRESH is set only when the parent has no unspent coin |
| `CoinsOps.SpendOk` | src/coins.cpp:98-112 | the coin is gone from the top view, the moved-out coin was the visible one, lower views are untouched; true exactly if a coin was visible or the cache had an entry |
| `CoinsOps.SpendNoEffect` | src/coins.h:245-250 | without an unspent coin no view at any level changes |
| `CoinsOps.SpendOnSpent` | src/coins.cpp:98-112 | a cache that holds the coin as spent answers true |
| `CoinsOps.UncacheOk` | src/coins.cpp:208-215 | dropping an unmodified entry changes no view |
| `CoinsEffects.UncacheDrops` | src/coins.cpp:208-215 | an entry is dropped, with its memory, exactly if it carries no change; all others stay |
| `CoinsEffects.FetchCaches` | src/coins.cpp:41-56 | a coin found is cached clean at every level on the way and nowhere else |
| `CoinsEffects.SpendUndoesAdd` | src/coins.cpp:67-112 | a coin added and spent in one cache leaves the stack exactly as it was |
| `CoinsEffects.FlushCarriesFresh` | src/coins.cpp:145-178 | a new coin is still FRESH in the parent after a flush |
| `CoinsEffects.SpentLeavesNoTrace` | src/coins.cpp:145-206 | spent after that and flushed again, it is gone from both caches |
| `CoinsOps.MergeAll` | src/coins.cpp:145-199 | merging the entries one by one gives, for every outpoint, the merge of its two entries, whatever the order |
| `CoinsOps.FlushCacheOk` | src/coins.cpp:145-206 | flushing into a cache never meets a misapplied FRESH flag, and the flags stay right against the grandparent |
| `CoinsOps.FlushStoreOk` | src/txdb.cpp:79-102 | flushing into the database makes it what the top cache showed |
| `CoinsRuns.StepRefines` | src/coins.cpp:41-215 | every operation on the caches is, at all levels at once, the operation on plain maps |
| `CoinsRuns.CacheRun` | src/coins.cpp:41-215 | so is every run, on a stack of any depth, with the flag and accounting invariants kept |
| `CoinsRuns.GetBestOk` | src/coins.cpp:135-139 | looking up the best block changes no answer |
| `CoinsRuns.FlushBest` | src/coins.cpp:197-206 | the exact condition under which a flush keeps the best block |
| `CoinsRuns.FlushLosesBest` | src/coins.cpp:197-206 | a stack on which a flush loses it |
| `CoinsRuns.ValueConserved` | src/coins.cpp:67-112 | spending all inputs and adding the outputs changes the total by spendable outputs minus inputs, at the top level only |
| `CoinsCache.CoinsViews.FetchCoin` | src/coins.cpp:41-56 | the recursive lookup through the levels is the specified fetch |
| `CoinsCache.CoinsViews.GetCoin` | src/coins.cpp:58-65 | the answer is the visible coin |
| `CoinsCache.CoinsViews.AddCoin` | src/coins.cpp:67-86 | refines the specified AddCoin; its throw is unreachable |
| `CoinsCache.CoinsViews.AddCoins` | src/coins.cpp:88-96 | adds the outputs to the top view as plain insertions, for coinbases too and after the inputs are spent |
| `CoinsCache.CoinsViews.SpendCoin` | src/coins.cpp:98-112 | refines the specified SpendCoin |
| `CoinsCache.CoinsViews.HaveCoin` | src/coins.cpp:125-128 | true exactly for a visible coin, and no view changes |
| `CoinsCache.CoinsViews.AccessCoin` | src/coins.cpp:116-123 | the visible coin, or an empty one |
| `CoinsCache.CoinsViews.GetBestBlock` | src/coins.cpp:135-139 | the first best block set on the way down |
| `CoinsCache.CoinsViews.BatchWrite` | src/coins.cpp:145-199 | the loop in any order yields the specified merge, exact memory use, and never throws |
| `CoinsCache.CoinsViews.WriteStore` | src/txdb.cpp:79-102 | the loop in any order applies exactly the dirty entries |
| `CoinsCache.CoinsViews.Flush` | src/coins.cpp:201-206 | refines the specified flush |
| `CoinsCache.CoinsViews.Uncache` | src/coins.cpp:208-215 | refines the specified Uncache |
| `CoinsCache.CoinsViews.GetValueIn` | src/coins.cpp:221-231 | the sum of the visible input values, no view changed |
| `CoinsCache.CoinsViews.HaveInputs` | src/coins.cpp:233-243 | true exactly if every input is visible, no view changed |
| `CheckQueueModel.BatchCount` | src/checkqueue.h:105-117 | a batch is at least one check and never more than the queue holds, so pops never underflow |
| `CheckQueueRuns.PoppedPass` | src/checkqueue.h:111-117 | taking checks from the back neither loses nor duplicates any verdict |
| `CheckQueueRuns.SectionKeeps` | src/checkqueue.h:76-127 | a critical section keeps all counts and the verdict, and a returned answer is the conjunction of all checks since the last one |
| `CheckQueueRuns.EvaluateKeeps` | src/checkqueue.h:121-125 | evaluating or skipping a check keeps the invariant |
| `CheckQueueRuns.AddKeeps` | src/checkqueue.h:146-158 | adding checks keeps the invariant |
| `CheckQueueWakes.AddWakes` | src/checkqueue.h:146-158 | two or more checks wake every waiting worker, one wakes the chosen one, and no other thread is touched |
| `CheckQueueWakes.RunAwake` | src/checkqueue.h:69-158 | if nobody wakes without a notification, queued checks never lie beside workers that all sleep |
| `CheckQueueWakes.WorkersFinish` | src/checkqueue.h:69-158 | so the workers alone can finish everything added before Wait is called |
| `CheckQueueWakes.BatchShare` | src/checkqueue.h:105-110 | a batch is the largest within the batch size and the fair share, but at least one |
| `CheckQueueRuns.RunKeeps` | src/checkqueue.h:69-158 | so does every interleaving |
| `CheckQueueRuns.WaitAnswers` | src/checkqueue.h:139-143 | in every interleaving each answer is true exactly if all checks it stands for pass |
| `CheckQueueRuns.NoneBusy` | src/checkqueue.h:83-100 | with nothing to do no thread holds a batch |
| `CheckQueueRuns.IdleBetweenWaits` | src/checkqueue.h:164-168 | with nothing added since the last answer the queue is idle, as the controller asserts |
| `CheckQueueRuns.IdleMeaning` | src/checkqueue.h:164-168 | idle means that nothing is queued, no thread holds a batch and all checks since the last answer pass |
| `CheckQueueRuns.IdleStays` | src/checkqueue.h:184-191 | and no step of a worker changes that |
| `CheckQueueRuns.SomeoneWorks` | src/checkqueue.h:83-85 | a blocked master that was not notified has a worker with an unfinished batch |
| `CheckQueueRuns.StepProgress` | src/checkqueue.h:76-127 | while the master waits every step but an idle wake-up decreases the work left |
| `CheckQueueRuns.WaitProgress` | src/checkqueue.h:76-127 | and such a step is always possible |
| `CheckQueueRuns.WaitReturns` | src/checkqueue.h:139-143 | so from any point of Wait a bounded schedule ends it with the right answer |
| `CheckQueue.Queue.CriticalSection` | src/checkqueue.h:77-120 | the whole section refines the specified step |
| `CheckQueue.Queue.PopBatch` | src/checkqueue.h:111-117 | the loop moves exactly the last checks to the batch |
| `CheckQueue.Queue.RunBatch` | src/checkqueue.h:121-125 | the local result is that of all its checks, with the rest skipped after a failure |
| `CheckQueue.Queue.AddChecks` | src/checkqueue.h:146-158 | the loop appends all checks and wakes workers |
| `CheckQueue.Queue.Idle` | src/checkqueue.h:164-168 | true exactly if nothing is queued or in a batch and all checks since the last answer pass; so it is true when nothing was added since |
| `LimbShifts.LeftValue` | src/arith_uint256.cpp:21-36 | limb-wise left shift multiplies by a power of two modulo the range |
| `LimbShifts.RightValue` | src/arith_uint256.cpp:38-53 | limb-wise right shift divides by a power of two |
| `LimbSteps.NoOverflow` | src/arith_uint256.cpp:55-81 | no product with carries exceeds 64 bits |
| `ArithUint.BaseUint.Assign` | src/arith_uint256.h:88-95 | the number becomes the 64-bit value |
| `ArithUint.BaseUint.Add` | src/arith_uint256.h:135-145 | addition modulo 2^bits, also of a number to itself |
| `ArithUint.BaseUint.Negate` | src/arith_uint256.h:77-84 | two's complement is the negative modulo 2^bits |
| `ArithUint.BaseUint.Subtract` | src/arith_uint256.h:147-151 | subtraction modulo 2^bits |
| `ArithUint.BaseUint.Increment` | src/arith_uint256.h:173-180 | plus one modulo 2^bits |
| `ArithUint.BaseUint.Decrement` | src/arith_uint256.h:190-197 | what an increment undoes |
| `ArithUint.BaseUint.ShiftLeft` | src/arith_uint256.cpp:21-36 | the in-place loop multiplies by 2^shift modulo 2^bits |
| `ArithUint.BaseUint.ShiftRight` | src/arith_uint256.cpp:38-53 | the in-place loop divides by 2^shift |
| `ArithUint.BaseUint.Scale` | src/arith_uint256.cpp:55-65 | multiplication by a limb modulo 2^bits without 64-bit overflow |
| `ArithUint.BaseUint.Multiply` | src/arith_uint256.cpp:67-81 | the product modulo 2^bits, and zero when both operands are the same object |
| `ArithUint.SquareOfThree` | src/arith_uint256.cpp:67-81 | three multiplied by itself in place becomes zero |
| `ArithUint.BaseUint.DivideBit` | src/arith_uint256.cpp:97-104 | one step keeps quotient times divisor plus rest equal to the dividend |
| `ArithUint.BaseUint.Divide` | src/arith_uint256.cpp:83-107 | the floor quotient, with the true remainder left in num; failure exactly for a zero divisor |
| `ArithUint.BaseUint.CompareTo` | src/arith_uint256.cpp:109-119 | the order of the values |
| `ArithUint.BaseUint.Bits` | src/arith_uint256.cpp:171-184 | the number of bits of the value |
| `ArithUint.BaseUint.GetLow64` | src/arith_uint256.h:245-249 | the value modulo 2^64 |
| `CompactModel.ToCompactNormal` | src/arith_uint256.cpp:224-245 | encoding gives the normal form, mantissa and exponent in range, sign exactly for negative nonzero values |
| `CompactModel.CompactFits` | src/arith_uint256.cpp:240-242 | the assertions of the encoder hold and the result fits 32 bits |
| `CompactModel.OverflowExact` | src/arith_uint256.cpp:217-220 | the overflow flag says exactly that mantissa * 256^(size-3) does not fit 256 bits |
| `CompactModel.DecodeEncode` | src/arith_uint256.cpp:204-245 | decoding an encoding rounds down by less than one part in 2^15 and keeps small values and the sign |
| `CompactModel.NearestBelow` | src/arith_uint256.cpp:204-245 | no representable value lies between the rounded and the original one |
| `CompactModel.EncodeIdempotent` | src/arith_uint256.cpp:204-245 | encoding, decoding and encoding again gives the same word |
| `CompactModel.CompactMonotone` | src/arith_uint256.cpp:224-245 | larger values have larger encodings |
| `CompactModel.NormalUnique` | src/arith_uint256.cpp:234-238 | a value has only one normal form |
| `Compact.SetCompact` | src/arith_uint256.cpp:204-222 | value modulo 2^256, overflow exactly when it does not fit, negative exactly for a signed nonzero value |
| `Compact.GetCompact` | src/arith_uint256.cpp:224-245 | the encoding of the value, with both assertions proved |
| `Base58Model.DecodeEncode` | src/base58.cpp:21-109 | every byte vector survives encoding and decoding, leading zeros included |
| `Base58Model.EncodeDecode` | src/base58.cpp:21-109 | every string over the alphabet is the encoding of what it decodes to |
| `Base58Blanks.LettersExactly` | src/base58.cpp:18-19 | the letters are the alphanumerics without 0, O, I and l |
| `Base58Blanks.BlanksIgnored` | src/base58.cpp:21-69 | blanks before and after change nothing |
| `Base58Blanks.BlankInside` | src/base58.cpp:54-58 | anything after a blank that follows the word is refused |
| `Base58Blanks.DecodesExactly` | src/base58.cpp:21-69 | a string decodes to some bytes exactly if it is their encoding between blanks |
| `Base58Model.DigitsUnique` | src/base58.cpp:98-101 | digits without leading zeros are determined by their number |
| `Base58.EncodeRoom` | src/base58.cpp:80-82 | the 138/100 + 1 buffer always suffices |
| `Base58.DecodeRoom` | src/base58.cpp:33-35 | the 733/1000 + 1 buffer always suffices |
| `Base58.Accumulate` | src/base58.cpp:84-97 | the inner loop multiplies the buffer and adds a digit, and its carry assertion holds |
| `Base58.Trimmed` | src/base58.cpp:98-101 | skipping zeros leaves the digits of the number |
| `Base58.EncodeBase58` | src/base58.cpp:71-109 | the loops compute the specified encoding |
| `Base58.DecodeDigits` | src/base58.cpp:33-53 | the loop over characters computes their number or stops at the first foreign one |
| `Base58.DecodeBase58` | src/base58.cpp:21-69 | the loops compute the specified decoding with all its failures |
| `Base58Check.CheckRoundTrip` | src/base58.cpp:121-145 | checksummed data survives |
| `Base58Check.CheckOnlyEncodings` | src/base58.cpp:130-145 | a string without blanks is accepted only if it is the encoding of the result |
| `Base58Blanks.CheckBlanksIgnored` | src/base58.cpp:130-145 | blanks around a checksummed string change nothing |
| `Base58Blanks.CheckBlankInside` | src/base58.cpp:130-145 | inside they are refused |
| `Base58Blanks.PastedReadsBack` | src/base58.cpp:121-145 | checksummed data survives with blanks around it |
| `Base58Check.EncodeBase58Check` | src/base58.cpp:121-128 | appends the checksum and encodes |
| `Base58Check.DecodeBase58Check` | src/base58.cpp:130-145 | refuses undecodable, short and wrongly summed strings and clears the result |
| `Base58Check.Base58Data.SetString` | src/base58.cpp:171-186 | succeeds exactly on valid strings that hold the version; otherwise both fields are cleared |
| `Base58Check.Base58Data.ToString` | src/base58.cpp:193-198 | yields a string that reads back as version and data |
| `Base58Check.DataRoundTrip` | src/base58.cpp:171-198 | reading with the same version length restores both fields |
| `Bip39Model.IndicesPacked` | src/bip39.cpp:65-70 | the word indices carry exactly the bits of the buffer |
| `Bip39Model.PackedUnique` | src/bip39.cpp:65-70 | and are determined by them |
| `Bip39Model.MnemonicSpells` | src/bip39.cpp:46-78 | the words spell the bits of the data and then one bit of its hash for every four bytes |
| `Bip39Model.SpellingUnique` | src/bip39.cpp:46-78 | no other words do |
| `Bip39Model.FromDataAccepted` | src/bip39.cpp:46-78 | a result of FromData is a valid mnemonic exactly for 16, 24 or 32 bytes |
| `Bip39Model.TwentyBytesRefused` | src/bip39.cpp:46-149 | 20 zero bytes have a mnemonic that is not accepted |
| `Bip39.FromData` | src/bip39.cpp:46-78 | the loops compute the mnemonic, or nothing for other lengths |
| `Bip39.ReadWords` | src/bip39.cpp:104-129 | the loop reads the only possible words and their bits, and fails exactly when there is no reading |
| `Bip39.WriteIndex` | src/bip39.cpp:120-125 | eleven bits are appended to the buffer |
| `Bip39.ChecksumAgrees` | src/bip39.cpp:133-146 | comparing the masked bytes decides whether the words match entropy and checksum |
| `Bip39.OnlyEntropy` | src/bip39.cpp:80-149 | the entropy behind a mnemonic is what its words spell out |
| `Bip39.Check` | src/bip39.cpp:80-149 | Check accepts exactly the results of FromData for 16, 24 or 32 bytes |
| `ChainHeights.GetSkipHeight` | src/chain.cpp:64-76 | a skip goes strictly down |
| `ChainHeights.LowestOneCleared` | src/chain.cpp:64-65 | the bit trick clears exactly the lowest one |
| `ChainModel.BlockIndex.GetAncestor` | src/chain.cpp:78-102 | following skips gives the block that walking pprev gives, and null outside the range; on a fully built index the number of steps is within the bound for its height |
| `ChainSteps.WalkBound` | src/chain.cpp:78-102 | between heights below 2^b the walk takes at most b(b - 1) + 1 steps |
| `ChainSteps.WalkLong` | src/chain.cpp:78-102 | the walk from 2^j - 1 to 2 takes at least (j^2 + 3j - 28) / 4 steps, so no bound linear in the bits holds |
| `ChainModel.BlockIndex.BuildSkip` | src/chain.cpp:109-113 | the skip pointer is set to the ancestor at the skip height and the index stays valid |
| `ChainModel.BlockTree.AddToBlockIndex` | src/validation.cpp:2970-3002 | a known hash changes nothing; a new one gets predecessor, height, skip pointer and chain work, and the best header stays one of the most work |
| `Chain.ActiveChain.SetTip` | src/chain.cpp:13-23 | despite its early stop the array holds exactly the ancestors of the new tip |
| `Chain.ActiveChain.FindFork` | src/chain.cpp:53-62 | the highest common block, or null if there is none |
| `Chain.ActiveChain.GetLocator` | src/chain.cpp:25-51 | the hashes of the ancestors at the locator heights, ending at genesis |
| `Chain.LocatorLength` | src/chain.cpp:25-51 | a locator of n >= 12 entries needs a height of at least 10 + 2^(n-12) |
| `Chain.LocatorDescends` | src/chain.cpp:37-47 | its heights strictly descend |
| `Chain.LocatorGaps` | src/chain.cpp:25-51 | neighbours are one apart at first and then twice as far each time |
| `Chain.LocatorNear` | src/chain.cpp:25-51 | the first entry at or below a fork is below it by no more than the fork is below the top |
| `BloomModel.InsertKeeps` | src/bloom.cpp:61-72 | an inserted key is contained and none is lost |
| `BloomRules.InsertExactly` | src/bloom.cpp:61-72 | exactly the bits of the key are set |
| `BloomModel.UpdateKeeps` | src/bloom.cpp:206-217 | refreshing the flags loses no key of a filter with a hash function |
| `BloomModel.UpdateAfterInsert` | src/bloom.cpp:206-217 | the exact condition under which a key survives insertion and refresh |
| `BloomModel.UpdateForgets` | src/bloom.cpp:206-217 | a filter of one byte without hash functions forgets any key |
| `BloomModel.MatchedInserted` | src/bloom.cpp:149-179 | a matched output is in the filter afterwards under UPDATE_ALL |
| `BloomModel.SpendFound` | src/bloom.cpp:184-201 | a filter that contains an outpoint finds its spender |
| `BloomRules.HashFound` | src/bloom.cpp:146-147 | a filter that contains the hash of a transaction finds it |
| `BloomRules.OutputDataFound` | src/bloom.cpp:149-179 | a contained data element of an output makes it relevant, and its outpoint is inserted under UPDATE_ALL, or under P2PUBKEY_ONLY for a pay-to-key output |
| `BloomRules.InputDataFound` | src/bloom.cpp:190-201 | so does a contained data element of an input |
| `BloomRules.RelevantExactly` | src/bloom.cpp:136-204 | with nothing to insert the filter stays and the answer is exactly that something of the transaction is contained |
| `BloomRules.UnrelatedIgnored` | src/bloom.cpp:136-204 | a transaction of which nothing is contained is not relevant and changes nothing |
| `BloomModel.SpendStaysRelevant` | src/bloom.cpp:136-204 | after a match every later spender is relevant, through any run without clear or reset |
| `BloomModel.RollInsertKeeps` | src/bloom.cpp:232-244 | the staggered halves keep what they must hold |
| `BloomModel.LastKeysContained` | src/bloom.cpp:219-258 | the last N keys of any insertion sequence are contained |
| `BloomRules.OldKeysForgotten` | src/bloom.cpp:232-258 | a key with a bit that none of the last 2N keys has is not contained |
| `Bloom.BloomFilter.InsertKey` | src/bloom.cpp:61-72 | the loop sets exactly the bits of the key |
| `Bloom.BloomFilter.ContainsKey` | src/bloom.cpp:88-102 | the loop tests exactly the bits of the key |
| `Bloom.BloomFilter.ClearAll` | src/bloom.cpp:118-123 | an empty filter of the same size |
| `Bloom.BloomFilter.UpdateFlags` | src/bloom.cpp:206-217 | the flags say whether all or no bits are set |
| `Bloom.BloomFilter.MatchTransaction` | src/bloom.cpp:136-204 | refines the specified matching and update |
| `Bloom.RollingFilter.InsertKey` | src/bloom.cpp:232-244 | keeps the staggering invariant over the history of keys |
| `Bloom.RollingFilter.ContainsKey` | src/bloom.cpp:252-258 | true for each of the last N keys |
| `Bloom.RollingFilter.Reset` | src/bloom.cpp:266-272 | starts with an empty history |
| `CacheModel.InsertBound` | src/cachemultimap.h:92-114 | the bound is kept exactly if it held and is not zero |
| `CacheModel.DuplicateKept` | src/cachemultimap.h:92-114 | inserting a pair again changes nothing exactly if the cache is not full or holds one pair |
| `CacheModel.DuplicateEvicts` | src/cachemultimap.h:92-114 | a full cache of two loses its oldest pair to a duplicate |
| `CacheModel.RunBounded` | src/cachemultimap.h:92-192 | every run stays within a bound of at least one and free of duplicates |
| `CacheModel.OnlyOldestEvicted` | src/cachemultimap.h:221-245 | an insertion loses no pair but the oldest of a full cache |
| `CacheModel.NewestKept` | src/cachemultimap.h:92-114 | after any number of different pairs the cache lists the newest that fit, newest first |
| `CacheModel.EraseKeySplits` | src/cachemultimap.h:156-170 | erasing keeps the order of the rest |
| `CacheModel.PutMeaning` | src/cachemap.h:111-125 | the new pair is stored, keys stay distinct, and only the oldest can be lost |
| `CacheModel.NewestKeysKept` | src/cachemap.h:111-125 | after any number of different keys the map lists the newest that fit, newest first |
| `CacheModel.PutInPlace` | src/cachemap.h:111-125 | a known key gets its value without moving |
| `CacheModel.MapRunBounded` | src/cachemap.h:111-153 | every run of the map stays within its bound with distinct keys |
| `CacheMultiMap.IndexUnique` | src/cachemultimap.h:247-259 | the index is determined by the list |
| `CacheMultiMap.MultiCache.PruneLast` | src/cachemultimap.h:221-245 | list and index lose exactly the oldest pair, and no empty map is left |
| `CacheMultiMap.MultiCache.InsertItem` | src/cachemultimap.h:92-114 | refines the specified insertion with index and size kept |
| `CacheMultiMap.MultiCache.Get` | src/cachemultimap.h:122-132 | the least value of the key, if any |
| `CacheMultiMap.MultiCache.GetAll` | src/cachemultimap.h:134-147 | all values of the key, each once, in ascending order |
| `CacheMultiMap.MultiCache.EraseItems` | src/cachemultimap.h:156-170 | all pairs of the key are gone from list and index |
| `CacheMultiMap.MultiCache.EraseItem` | src/cachemultimap.h:172-192 | exactly the one pair is gone |
| `CacheMultiMap.MultiCache.RebuildIndex` | src/cachemultimap.h:247-259 | the rebuilt index is the one there was |
| `CacheMap.Cache.InsertItem` | src/cachemap.h:111-125 | refines the specified insertion or update in place |
| `CacheMap.Cache.Get` | src/cachemap.h:133-142 | the value of the key, if any |
| `CacheMap.Cache.EraseItem` | src/cachemap.h:144-153 | exactly the key is gone |
| `CacheMap.Cache.PruneLast` | src/cachemap.h:182-191 | exactly the oldest item is gone |
| `CacheMap.Cache.RebuildIndex` | src/cachemap.h:193-199 | the rebuilt index is the one there was |

## Left out

- Address manager: `Select_` and `GetChance` (random loops, floating point), `Clear` on a populated manager, and locking.
- AddrManStream.Unserialize: for streams whose entries no consistent manager wrote, it states only the refusal of a wrong key size and that the tables keep their shape.
- InstantSend: expiry (`CheckAndRemove`), block confirmations, wallet and mempool side effects, message relay and the limits on orphan votes over time; runs are those between expiries.
- Coins: the throwing path of `AddCoin`, excluded by its documented precondition; cursors, the LevelDB layer and the random salt of the hash map.
- CheckQueue: counters are unbounded integers, so more than 2^32 outstanding checks are outside the model; `fQuit` is never set in the source and is taken as false.
- ArithUint.BaseUint.Multiply: for a number multiplied by itself it states the zero result of the code rather than the product, because the source clears the operand first.
- Hexadecimal and floating-point conversions of the integers, which are formatting.
- Base58: addresses and secrets built on top of the version-prefixed data.
- Mnemonics: `Generate` and `ToSeed` (randomness and key derivation).
- Chain: `nStep` of the locator is unbounded, so heights above 2^30 are outside the model.
- ChainModel.BlockTree.AddToBlockIndex: does not model validity flags, the dirty set or the wrap-around of the 256-bit chain work, nor a header that names its own hash as its predecessor.
- Bloom filters: sizing formulas and false-positive rates; script parsing and `Solver` are given by their results.
- Caches: `SetMaxSize` and serialisation; the limit is fixed.
- Governance, consensus rules, networking, storage, RPC, wallet and cryptography: input and output or easier than what is here.
