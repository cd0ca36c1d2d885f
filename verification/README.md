# Verified model of the node's data structures, codecs and protocols

This project models, in Dafny, parts of a Bitcoin-derived node with proof of stake,
masternodes and Zerocoin mints, and proves what they are meant to guarantee.
Paths below are relative to the root of the node's repository.

- **Coins** (`Coins`, `CoinsCodec`, `CoinsSize`, `VarInts`, `CoinsView`, `CoinsCache`): layered
  write-back caches over a database. The invariant between layers makes the shortcuts of a batch
  write sound, and a stack of caches is one plain map. The serialized form of coins
  comes back as the cleaned-up coins.
- **Denominations** (`Denominations`, `CoinSelection`): choosing mints for a spend.
  Largest-first is exact whenever any choice is, because each denomination divides the
  next; on that rests that a selection with change covers its target.
- **Address manager** (`AddrManState`, `AddrManRuns`, `AddrMan`, `AddrManCheck`,
  `AddrManImage`, `AddrManDisk`, `AddrManRoundTrip`, `AddrManLoad`): the invariant that the
  program's own check looks for holds in every reachable state, saving and loading loses
  nothing, and with other table sizes just what collides. Table sizes and bucket hashes
  are parameters.
- **Merkle trees** (`MerkleTree`, `PartialMerkleTree`, `BlockMerkle`, `Bits`): round trip and
  soundness of the encoding of BIP 37, section "Partial Merkle branch format", and its
  agreement with the tree and the branches of a block.
- **Check queue** (`CheckQueue`): master and workers as a state machine whose steps lie
  between lock acquisitions and waits; all interleavings.
- **Base58** (`Radix`, `Base58`), **amount compression** (`Compressor`).
- **Chain** (`Chain`), **accumulator checkpoints** (`Accumulators`), **stake modifier**
  (`StakeModifier`), **masternode votes** (`MasternodePayments`).

Where the program updates an object or an array in place, the model has a class or a
method with loops, tied by its postconditions to functions on values; the lemmas are
about those functions. Asserts of the program are asserts of the methods. Hashes, and the
increment of an accumulator, are function parameters. What the program draws at random is
a nondeterministic choice or a parameter, and a clock reading is a parameter.

Some claims turned out not to hold as they might be expected. The exact conditions are
proved, each with an instance that fails:

- `AddrManState.GoodInv`: a success at a time that is not positive breaks the consistency
  check (`AddrManRuns.GoodAtZero`).
- `AddrManState.AttemptInv`: so does an attempt at a negative time
  (`AddrManRuns.AttemptBeforeZero`).
- `AddrManRuns.AddKeepsNewcomer`: Add answers true although the address was not kept
  (`AddrManRuns.NewcomerLost`).
- `AddrManDisk.ClearedInv`: clearing an address manager keeps its maps, so it is consistent
  only if they were empty (`AddrManDisk.ClearLeavesEntries`).
- `AddrManCheck.PassingInv`: the consistency check overlooks stray keys of the reverse map,
  which come about by loading into a manager that was cleared (`AddrManDisk.StrayKey`), and
  ids that were not given out.
- `CoinsView.FlushKeepsBestBlock`: a flush can make the parent forget the best block
  (`CoinsView.FlushForgetsBestBlock`).
- `CoinSelection.PicksRepeat`: mints are picked twice when more are wanted than there are
  (`CoinSelection.PickedTwice`).
- `CoinSelection.LoopsEnd`: the loop over the mints never ends when one is wanted and there
  is none (`CoinSelection.LoopForever`).
- `CoinSelection.LimitKept`: with change, more mints than allowed can be selected
  (`CoinSelection.TooManySpends`).
- `CoinsCodec.RoundTripPlain`: coins with a negative version are not read back as written
  (`CoinsCodec.VersionLost`).
- `CoinsSize.GetSerializeSize`: the announced size of coins can be one byte short
  (`CoinsSize.OneByteShort`).
- `MasternodePayments.OneVoteEach`: a masternode can vote twice for a height
  (`MasternodePayments.VotesTwice`).
- `Compressor.WordRoundTrip`: amounts above (2^64 - 1) / 9 + 1 are lost in compression
  unless they end in a zero (`Compressor.AllowedAmountLost`).
- `MerkleTree.FewBitsStored`: more flag bits than documented (`MerkleTree.ThreeNeedSix`).

Where a comment and the code disagree, the model follows the code: the bytes given in
`src/serialize.h` for the variable-length integers 16511 and 65535 are not those that the
code writes (`VarInts.KnownEncodings`).

## Model

| member | source | states |
|---|---|---|
| `Coins.Cleaned` | src/coins.h:120-126 | Cleaning only drops spent outputs at the end: the result is a prefix, every output keeps its availability, and it is empty exactly when the coins were pruned |
| `Coins.Cleanup` | src/coins.h:120-126 | The loop over the spent tail yields exactly the cleaned coins |
| `Coins.Spend` | src/coins.cpp:36-52 | Spends exactly an available output, changes the availability of no other, leaves a null output in its place unless the tail falls off, hands the output to the undo record, and puts height, flags and version into it exactly when it was the last one |
| `CoinsCodec.CalcMaskSize` | src/coins.cpp:17-34 | The size is the length of the mask without its trailing zero bytes, the count that of its non-zero bytes |
| `CoinsCodec.UnprunedHasCode` | src/coins.h:206 | The assert in Serialize: coins that are not pruned have one of the first two outputs or a non-zero mask byte |
| `CoinsCodec.Serialize` | src/coins.h:200-227 | Writes the version, the header code, the trimmed mask, the unspent outputs and the height |
| `CoinsCodec.Unserialize` | src/coins.h:230-263 | The reading loops compute the decoder or fail where the stream ends or does not fit |
| `CoinsCodec.ReadMaskConsumesTrim` | src/coins.h:244-253 | Counting non-zero bytes only, the reader takes exactly the mask bytes that were written, because the last of them is not zero |
| `CoinsCodec.CodeRoundTrip` | src/coins.h:207-242 | The header code gives back the count and all four flags |
| `CoinsCodec.ReadOutsOfTokens` | src/coins.h:221-259 | Reading the outputs that the flags announce gives back every output, whatever follows |
| `CoinsCodec.RoundTrip` | src/coins.h:199-263 | Unserializing what was serialized from coins that are not pruned yields their cleaned form as stored (of a negative version, the lowest seven bits), and leaves exactly what followed in the stream |
| `CoinsCodec.RoundTripPlain` | src/coins.h:199-263 | For coins as the node holds them that is Cleanup of the original, exactly if the version is not negative |
| `CoinsCodec.VersionLost` | src/coins.h:209 | A version of -1 comes back as 127 |
| `CoinsSize.GetSerializeSize` | src/coins.h:175-197 | The announced size is the number of bytes written, except exactly that it is one short if a threshold lies between the header code with factor 8 and that with factor 16 |
| `CoinsSize.CodeSizes` | src/coins.h:183-207 | The two header codes differ by at most one byte, exactly if a threshold lies between them |
| `CoinsSize.BytesWritten` | src/coins.h:200-227 | What is written: the variable-length integers, the trimmed mask, the outputs |
| `CoinsSize.StraddlesMeans` | src/coins.h:183 | With fewer than 1032 masks in the code: from 8 masks on while the smaller code is below 128 |
| `CoinsSize.OneByteShort` | src/coins.h:183 | For 59 unspent outputs the size is one byte short |
| `VarInts.RoundTrip` | src/serialize.h:436-450 | Reading what was written gives back the number and leaves what follows |
| `VarInts.OneEncoding` | src/serialize.h:393 | Every number has exactly one encoding: a stream starts with it exactly if the number is read |
| `VarInts.ReadsToLastDigit` | src/serialize.h:395-396 | No redundancy: every stream with a final digit reads as some number |
| `VarInts.SignedRoundTrip` | src/serialize.h:419-450 | Of a signed type exactly the numbers that are not negative come back |
| `VarInts.SizeIs` | src/serialize.h:392 | At most k bytes exactly below 128 + 128^2 + ... + 128^k |
| `VarInts.BufferFits` | src/serialize.h:422 | The buffer of the writer suffices for integers of any width |
| `VarInts.GetSizeOfVarInt` | src/serialize.h:406-417 | The loop counts the bytes of the encoding |
| `VarInts.WriteVarInt` | src/serialize.h:419-434 | Fills the buffer backwards within its bounds and writes the encoding; of a negative number that of its lowest seven bits |
| `VarInts.ReadVarInt` | src/serialize.h:436-450 | The loop reads the number or fails at the end of the stream |
| `VarInts.KnownEncodings` | src/serialize.h:398-403 | The encodings of the documented numbers |
| `Bits.PackBits` | src/merkleblock.h:101-103 | Byte b, as a number, is the sum of 2^p over the flags 8b + p that are set |
| `Bits.UnpackBits` | src/merkleblock.h:96-98 | Flag 8b + p is the binary digit p of byte b |
| `Bits.UnpackAllPackAll` | src/merkleblock.h:88-106 | Unpacking what was packed gives every flag back, followed by fewer than eight unset ones |
| `CoinsView.FetchLookup` | src/coins.cpp:86-102 | Pulling an entry into the caches changes no lookup of any transaction |
| `CoinsView.FetchCoherent` | src/coins.cpp:86-102 | and keeps the invariant between the layers: an entry that is not fresh has one in its parent, a fresh one is absent or pruned below |
| `CoinsView.ModifiableCoherent` | src/coins.cpp:114-131 | Preparing an entry for modification keeps the invariant and what is visible, and leaves the entry dirty |
| `CoinsView.ReleasedCoherent` | src/coins.cpp:273-281 | Ending a modification keeps the invariant; what becomes visible is the cleaned-up value of the one entry |
| `CoinsView.BatchWriteAssert` | src/coins.cpp:172-177 | The assert in BatchWrite holds: a child entry unknown to the parent cache is fresh |
| `CoinsView.SkippedSpendIsLost` | src/coins.cpp:170-172 | Skipping a pruned dirty entry unknown to the parent loses no spend: it is not visible below |
| `CoinsView.BatchWrittenView` | src/coins.cpp:165-200 | After a batch write the parent alone shows what the child showed, and is coherent |
| `CoinsView.MergedDbShows` | src/txdb.cpp:60-79 | The same for the database as parent, which erases pruned and writes other dirty entries |
| `CoinsView.FlushedView` | src/coins.cpp:202-207 | A flush changes nothing that is visible, for any transaction |
| `CoinsView.FlushKeepsBestBlock` | src/coins.cpp:153-158 | A flush keeps the best block exactly when the child has read or set one, the parent is a database, or the parent has none or its own base agrees |
| `CoinsView.FlushForgetsBestBlock` | src/coins.cpp:198 | A cache that never read the best block makes its parent, which knows block 7, forget it |
| `CoinsView.StepBests` | src/coins.cpp:153-206 | Every operation does to the best blocks of all layers what it is to do (setting changes the top, flushing copies it one down, a new cache repeats it), except exactly a flush that does not keep the block |
| `CoinsView.RunBests` | src/coins.cpp:153-206 | Over every run whose flushes keep the block, every layer has the best block the operations say |
| `CoinsView.BestsFollow` | src/coins.cpp:153-206 | Reading the best block before each flush is enough for that, for every run from any database |
| `CoinsView.StepKeeps` | src/coins.cpp:86-207 | Each operation on a stack of any depth keeps the invariant and agrees with the same operation on plain maps |
| `CoinsView.StackIsPlainMap` | src/coins.cpp:86-281 | Over every run of reads, modifications, flushes, and caches stacked and dropped, every layer shows one plain map from transactions to coins |
| `CoinsView.HaveCoinsMeansVisible` | src/coins.cpp:143-151 | In every state reached from a database of clean coins, testing the output list for emptiness is as good as testing for pruned coins, except for coins under modification |
| `CoinsView.StepClean` | src/coins.cpp:273-281 | All entries stay clean, except the one under modification |
| `CoinsView.CleanMeansVisible` | src/coins.cpp:143-151 | The same for any stack of clean entries |
| `CoinsCache.CoinsViewDB.BatchWrite` | src/txdb.cpp:60-79 | The database after the loop is the merged one; the best block changes unless the hash is null |
| `CoinsCache.CoinsViewCache.FetchCoins` | src/coins.cpp:86-102 | Finds or pulls in an entry: the coins found below, not dirty, fresh exactly when all spent; every other entry stays; fails exactly when no layer knows the transaction |
| `CoinsCache.CoinsViewCache.GetCoins` | src/coins.cpp:104-112 | Answers the coins the stack looks up |
| `CoinsCache.CoinsViewCache.HaveCoins` | src/coins.cpp:143-151 | Answers whether the stack has coins with outputs |
| `CoinsCache.CoinsViewCache.GetBestBlock` | src/coins.cpp:153-158 | Reads the best block through the stack and remembers it |
| `CoinsCache.CoinsViewCache.ModifyCoins` | src/coins.cpp:114-131 | Makes the entry present and dirty: a new one holds the coins found below, fresh exactly when all spent, or none at all; every other entry stays; the cache then has a modifier |
| `CoinsCache.CoinsViewCache.BatchWrite` | src/coins.cpp:165-200 | The loop with its three ways of merging an entry makes the cache the merged view |
| `CoinsCache.CoinsViewCache.Flush` | src/coins.cpp:202-207 | Writes to the base and empties the cache: the stack becomes the flushed view |
| `CoinsCache.CoinsModifier.Release` | src/coins.cpp:273-281 | Cleans the entry up and erases it if it is fresh and pruned |
| `Denominations.TableIsChain` | src/libzerocoin/Denominations.h:19-32 | The table holds 1, 5, 10, 50, 100, 500, 1000 and 5000 coins; every denomination divides the next larger one |
| `Denominations.SubCollection` | src/denomination_functions.cpp:46-68 | Coins that all divide an amount, and are worth at least that amount, contain a sub-collection worth exactly the amount |
| `Denominations.TakeIsLargest` | src/denomination_functions.cpp:60-65 | The inner loop takes the largest number of coins that is held and fits |
| `Denominations.Exchange` | src/denomination_functions.cpp:58-66 | Smaller coins worth n of a larger one can give way to n of it, with no more coins |
| `Denominations.GreedyExact` | src/denomination_functions.cpp:46-68 | If any choice within the holdings sums to the target, largest-first sums to it too, with the fewest coins |
| `Denominations.ChangeIsFewest` | src/denomination_functions.cpp:73-93 | Largest-first without limits gives the whole amount, rounded down to the smallest denomination, in the fewest coins |
| `Denominations.ChangeLess` | src/denomination_functions.cpp:279-298 | Change without some of its coins is the change for what the other coins are worth |
| `CoinSelection.getSpendCoins` | src/denomination_functions.cpp:46-68 | The do-while loops compute largest-first under the holdings |
| `CoinSelection.getChange` | src/denomination_functions.cpp:73-93 | Without limits: the coins are worth the amount, rounded down to the smallest denomination, and no coins worth that much are fewer |
| `CoinSelection.getMaxDenomHeld` | src/denomination_functions.cpp:31-42 | The largest denomination held, or none |
| `CoinSelection.getNextLowerDenomHeld` | src/denomination_functions.cpp:206-217 | The largest denomination held below a given one, or none |
| `CoinSelection.LargestFirstIsIdeal` | src/denomination_functions.cpp:99-123 | Largest-first meets the target exactly when some choice does, and no exact choice has fewer coins |
| `CoinSelection.getIdealSpends` | src/denomination_functions.cpp:99-123 | True exactly when some choice of unused mints sums to the target; the choice found has the fewest coins |
| `CoinSelection.approachFromBelow` | src/denomination_functions.cpp:240-252 | The first stage of minimizeChange is largest-first for one unit less, from a given denomination down |
| `CoinSelection.addOneCoin` | src/denomination_functions.cpp:257-266 | The second stage adds the smallest unused coin that passes the target, unless none does |
| `CoinSelection.TwoStagesCover` | src/denomination_functions.cpp:240-266 | Whenever the holdings allow it, the two stages pass the target, so one coin is indeed enough |
| `CoinSelection.removeOverlap` | src/denomination_functions.cpp:279-289 | Of each denomination, as many coins are taken off what is spent as off what is returned, until one of them has none; no more is taken off than the change is worth |
| `CoinSelection.StuckIsTopExact` | src/denomination_functions.cpp:240-266 | If no unused coin passes what remains, the target is an exact sum of all coins above a denomination and some of it |
| `CoinSelection.minimizeChange` | src/denomination_functions.cpp:219-308 | The alternative is taken exactly when its change has fewer coins and it keeps the limit on spends; otherwise the given selection stays. It is worth what is kept of the first two stages, in the fewest coins held; what is kept and what is returned share no denomination, and the change count is that of the two stages less the coins in common. What is returned is within the holdings and covers a coverable target |
| `CoinSelection.AlternativeSettles` | src/denomination_functions.cpp:270-298 | The alternative is such a selection, whatever the target and the holdings |
| `CoinSelection.StopIsExact` | src/denomination_functions.cpp:369-380 | If the target is such a sum, the covering loop meets it exactly |
| `CoinSelection.coverTarget` | src/denomination_functions.cpp:364-380 | Largest coins first, each only while something is left to cover: takes everything, or stops at the first sum from the top that reaches the target |
| `CoinSelection.calculateChange` | src/denomination_functions.cpp:316-405 | Within holdings; covers every positive target that the holdings cover; its count is that of the change, the fewest coins worth the surplus, and never more than for the plain selection, which is the smallest held coin above the target or, without one, the covering coins; which of plain and alternative is chosen |
| `CoinSelection.SearchTopIs` | src/denomination_functions.cpp:341-391 | The search for less change takes part exactly in the coins held that do not pass the target |
| `CoinSelection.SelectionPrefers` | src/denomination_functions.cpp:333-404 | Minimizing, the least change within the limit on spends; otherwise the one coin above the target or, without one, no more spends than the covering coins, and with as few the least change within the limit; the plain selection gives way only to strictly less change |
| `CoinSelection.LimitKept` | src/denomination_functions.cpp:310-404 | The selection keeps the limit on spends exactly when the plain one does, or the alternative is better and eligible |
| `CoinSelection.TooManySpends` | src/denomination_functions.cpp:310-404 | For two coins of 10, a target of 18 and one spend allowed, both are selected, although a count of zero is to stand for too many spends |
| `CoinSelection.getSpends` | src/denomination_functions.cpp:128-148 | Picks mints worth the counts; requires exactly that its loops end |
| `CoinSelection.LoopsEnd` | src/denomination_functions.cpp:134-145 | The do-while loops come to an end exactly when each wanted denomination has an unused mint |
| `CoinSelection.LoopForever` | src/denomination_functions.cpp:134-145 | With no mint and one wanted, one is left after any number of passes |
| `CoinSelection.PicksWithinSupply` | src/denomination_functions.cpp:128-148 | For counts within the unused mints: no mint is picked twice, none is used, and as many are picked as wanted |
| `CoinSelection.PicksRepeat` | src/denomination_functions.cpp:136-145 | What getSpends picks are distinct mints exactly when no more are wanted of any denomination than there are unused mints |
| `CoinSelection.PickedTwice` | src/denomination_functions.cpp:136-145 | With one mint and two wanted, it is picked twice |
| `CoinSelection.SupplyEnds` | src/denomination_functions.cpp:421-439 | If the holdings count unused mints only, the loops that pick mints for the selection end |
| `CoinSelection.SurplusNeedsChange` | src/denomination_functions.cpp:432-437 | A selection worth more than a target in whole smallest coins has at least one coin of change |
| `CoinSelection.SelectMintsFromList` | src/denomination_functions.cpp:411-443 | Unused mints, distinct if the holdings count unused mints only; exact, in the fewest mints, if an exact choice with few enough spends exists, otherwise those of the change selection, with the coins of change reported, and nothing exactly when that is none; for a positive target in whole smallest coins, not above holdings that count unused mints only, something is always returned, unless only too many mints meet it exactly; how many that takes is then reported |
| `AddrManState.CreatedCore` | src/addrman.cpp:89-99 | A new entry keeps the index, the tables and the counts; the new id is not in use |
| `AddrManState.SwappedIndex` | src/addrman.cpp:101-119 | A swap in vRandom keeps the bijection with the entries and changes nothing else of them |
| `AddrManState.DeletedCore` | src/addrman.cpp:121-133 | Deleting an entry without references keeps everything else |
| `AddrManState.ClearedCore` | src/addrman.cpp:135-148 | The assert in ClearNew holds, and clearing a position keeps index, tables and counts |
| `AddrManState.ClearedOthers` | src/addrman.cpp:135-148 | and concerns no entry but the one in the position |
| `AddrManState.UnlistedCore` | src/addrman.cpp:150-162 | The assert after the loop of MakeTried holds: no reference is left |
| `AddrManState.MovedBackCore` | src/addrman.cpp:169-190 | An evicted entry is entered into the new table again, pushing out at most one other, and the tried position is free |
| `AddrManState.MadeTriedSound` | src/addrman.cpp:150-196 | MakeTried keeps index, tables, counts and counters |
| `AddrManState.MadeTriedTimed` | src/addrman.cpp:150-196 | MakeTried leaves all times right if they were, and the entry made tried had been reached |
| `AddrManState.HasBucket` | src/addrman.cpp:224-239 | The search for a bucket always succeeds: the bail-out in Good_ is unreachable |
| `AddrManState.GoodInv` | src/addrman.cpp:198-245 | Good_ keeps the invariant exactly when its time is positive or the service is not known |
| `AddrManState.GoodSound` | src/addrman.cpp:198-245 | Whatever its time, Good_ keeps index, tables, counts and counters |
| `AddrManState.GoodIsTried` | src/addrman.cpp:198-245 | After Good_, whatever its time, a known service is in its tried position, with that time as its last success and last try, no attempts, and its address unchanged |
| `AddrManState.AddInv` | src/addrman.cpp:247-313 | Add_ keeps the invariant and never touches the tried table |
| `AddrManState.AttemptInv` | src/addrman.cpp:315-332 | Attempt_ keeps the invariant exactly when its time is not negative or the service is not known |
| `AddrManState.ConnectedInv` | src/addrman.cpp:472-490 | Connected_ keeps the invariant |
| `AddrManRuns.NewsOnlyAdd` | src/addrman.cpp:256-264 | News about a known entry never turn back its time or take away a service |
| `AddrManRuns.AddKeepsUp` | src/addrman.cpp:256-264 | After news about a known entry its time is behind what was reported by no more than an hour, or a day if that is older than a day, and the penalty; a time no further behind stays; services are united |
| `AddrManRuns.AddGivesReference` | src/addrman.cpp:266-312 | A known entry gets a position for the source exactly if the news are newer than its record, it is not in tried, has room, is lucky once in 2^n times with n references, and the position is free or held by a terrible entry |
| `AddrManRuns.AddDisturbsOne` | src/addrman.cpp:291-311 | Add_ disturbs no entry but the one added and the one in the position it goes to |
| `AddrManRuns.AddKeepsNewcomer` | src/addrman.cpp:284-312 | A new address is kept exactly when its position is free, or held by an entry that is terrible or has another position; its record is the address as reported, less the penalty, with the source and no history |
| `AddrManRuns.NewcomerLost` | src/addrman.cpp:284-312 | With one position, the second of two addresses is not kept |
| `AddrManRuns.GoodAtZero` | src/addrman.cpp:211-214 | With one address, a success at time zero leaves an inconsistent manager |
| `AddrManRuns.GoodMovesOne` | src/addrman.cpp:150-196 | The entry whose tried position is taken goes back to the new position of its own source; the entry there is dropped exactly if it has no other; nothing else is lost or changed |
| `AddrManRuns.ConnectedKeepsUp` | src/addrman.cpp:483-489 | Connected_ moves the time of the entry to now exactly if it is more than twenty minutes behind, and nothing else |
| `AddrManRuns.AttemptBeforeZero` | src/addrman.cpp:328-331 | With one address, an attempt at a negative time leaves an inconsistent manager |
| `AddrManRuns.ThreeAttempts` | src/addrman.cpp:34-52 | An address never reached, but still seen, is terrible exactly after three attempts, unless the last was within the minute |
| `AddrManRuns.UnseenIsTerrible` | src/addrman.cpp:34-43 | Tried within the minute, an entry is not terrible; otherwise it is if it was not seen within thirty days, or only in the future |
| `AddrManRuns.SuccessLastsAWeek` | src/addrman.cpp:45-51 | After a success, an address that is still seen is terrible exactly after ten failures and a week, unless the last failure was within the minute |
| `AddrManRuns.Run` | src/addrman.cpp:198-490 | Every state reached from an empty manager, with positive times, satisfies the whole invariant |
| `AddrManRuns.Sizes` | src/addrman.cpp:379-380 | vRandom, the entries and the reverse map have the same size, the sum of the two counters |
| `AddrMan.CAddrMan.constructor` | src/addrman.h:428-451 | A new manager is empty and consistent |
| `AddrMan.CAddrMan.Find` | src/addrman.cpp:76-87 | Finds the entry of a network address |
| `AddrMan.CAddrMan.Create` | src/addrman.cpp:89-99 | Performs the creation of an entry on maps, vector and counter |
| `AddrMan.CAddrMan.SwapRandom` | src/addrman.cpp:101-119 | Performs the swap; its asserts hold |
| `AddrMan.CAddrMan.Delete` | src/addrman.cpp:121-133 | Performs the deletion |
| `AddrMan.CAddrMan.ClearNew` | src/addrman.cpp:135-148 | Performs the clearing on the bucket array; its assert holds |
| `AddrMan.CAddrMan.LeaveBuckets` | src/addrman.cpp:152-159 | The loop over all buckets takes out every reference to the entry and counts them down |
| `AddrMan.CAddrMan.MakeTried` | src/addrman.cpp:150-196 | Performs the move to the tried array; its asserts hold |
| `AddrMan.CAddrMan.FindBucket` | src/addrman.cpp:225-234 | The search from a random bucket finds one, and one that holds the entry |
| `AddrMan.CAddrMan.Good_` | src/addrman.cpp:198-245 | Performs Good on the object, which stays consistent exactly for positive times or unknown services; the search never fails |
| `AddrMan.CAddrMan.Add_` | src/addrman.cpp:247-313 | Performs Add on the object, which stays consistent; true exactly for a routable address that was not known |
| `AddrMan.CAddrMan.AsksForMore` | src/addrman.cpp:266-283 | True exactly if the news are newer than the record, the entry is not in tried and has room, and the random number is a multiple of 2 to the power of the references |
| `AddrMan.CAddrMan.Attempt_` | src/addrman.cpp:315-332 | Counts an attempt for exactly the service; the object stays consistent exactly for times that are not negative or unknown services |
| `AddrMan.CAddrMan.Connected_` | src/addrman.cpp:472-490 | Moves the time of exactly the service by the update interval |
| `AddrMan.CAddrMan.GetAddr_` | src/addrman.cpp:451-470 | At most 23 per cent and 2500 addresses, distinct, of entries that are not terrible; all such entries if the limit is not reached; nothing but places in vRandom changes |
| `AddrManCheck.Check_` | src/addrman.cpp:374-448 | The consistency check answers 0 for exactly the managers that are consistent but for stray keys of the reverse map and ids not given out; a consistent manager passes unchanged |
| `AddrManCheck.PassingInv` | src/addrman.cpp:398-399 | A manager that passes satisfies the whole invariant exactly when all ids are below the id counter and the reverse map has as many keys as there are entries |
| `AddrManCheck.CheckTried` | src/addrman.cpp:413-425 | The walk over the tried table succeeds exactly if every position holds a tried entry that belongs there; left over are those not in their place |
| `AddrManCheck.CheckNew` | src/addrman.cpp:427-438 | The walk over the new table succeeds exactly if every position holds an entry that belongs there, none in more positions than it has references; nothing is left exactly if none has fewer |
| `AddrManCheck.CheckEntries` | src/addrman.cpp:382-407 | Succeeds exactly if every entry is right; an address missing from the reverse map is added |
| `AddrManDisk.Serialize` | src/addrman.h:276-323 | The loops write the image: entries by ascending id, buckets by index; both asserts hold |
| `AddrManDisk.Clear` | src/addrman.h:428-446 | Clear empties vector, tables and counters, and leaves the two maps as they are |
| `AddrManDisk.ClearedInv` | src/addrman.h:428-446 | What Clear leaves is consistent exactly if both maps were empty |
| `AddrManDisk.ClearLeavesEntries` | src/addrman.h:428-446 | After one address was added, what Clear leaves is not consistent |
| `AddrManDisk.StrayKey` | src/addrman.h:366-385 | Loading a tried entry of another address after that leaves a stray key, and the check passes |
| `AddrManDisk.Unserialize` | src/addrman.h:326-421 | The loops compute the loaded state, for any image that can be read to its end |
| `AddrManRoundTrip.TriedFree` | src/addrman.h:366-385 | No tried entry is lost on loading: no two share a position |
| `AddrManRoundTrip.FillOne` | src/addrman.h:387-403 | An index written for a position is read back into the same position, with room for the reference |
| `AddrManRoundTrip.SavedFormat` | src/addrman.h:245-263 | The saved form is the documented one: version 1, key of 32 bytes, counts, and the number of buckets with bit 30 flipped, which is flipped back on reading except for version 0 |
| `AddrManRoundTrip.RoundTrip` | src/addrman.h:275-421 | Loading what a consistent manager saved gives the same manager, entries renumbered in the order of saving: same slots, reference counts, counters and statistics except the last try; nothing is lost or pruned |
| `AddrManLoad.LoadedInv` | src/addrman.h:326-421 | Any readable image with a key, distinct addresses, no negative time and no tried entry that was never reached loads into a consistent manager, whatever its buckets say and whatever table sizes it was written with |
| `AddrManLoad.ResizedInv` | src/addrman.h:269-270 | A manager saved under one set of table sizes loads consistently under any other; its buckets are used exactly if there are as many |
| `AddrManLoad.TriedLosses` | src/addrman.h:366-385 | A tried entry of an image is kept, as stored, exactly if no tried entry before it has the same position |
| `AddrManLoad.NewLosses` | src/addrman.h:346-364 | Without usable buckets, a new entry is kept, as stored, exactly if no new entry before it has the same position for its source |
| `MerkleTree.WidthClosed` | src/merkleblock.h:66-69 | The number of nodes at a height is the transaction count divided by a power of two, rounded up |
| `MerkleTree.ExtractBuild` | src/merkleblock.cpp:56-104 | Decoding what was encoded for a node, anywhere in the bits and hashes, gives its hash and its matches and uses up exactly what was written |
| `MerkleTree.RoundTrip` | src/merkleblock.cpp:106-155 | Extracting from a built tree passes every check and returns the root and exactly the matched transactions in order, for every non-empty list within the limit and every mask, also with padding |
| `MerkleTree.NothingLeftOver` | src/merkleblock.cpp:123-153 | A message that is accepted has nothing left over: with more hashes, or flags for another byte, it is not accepted |
| `MerkleTree.BuildSizes` | src/merkleblock.cpp:132-137 | A built tree has at least one hash, at most one per transaction, and a bit for each |
| `MerkleTree.FewHashesStored` | src/merkleblock.h:39-42 | At most 1 + matched * height hashes are stored |
| `MerkleTree.BitsOfHashes` | src/merkleblock.cpp:56-73 | The bits are twice the hashes less one, and one more for every node with a single child that is gone below |
| `MerkleTree.FewBitsStored` | src/merkleblock.h:47 | The documented bound on the bits holds exactly if there is no such node |
| `MerkleTree.ThreeNeedSix` | src/merkleblock.h:47 | Three transactions, all chosen, take six bits and three hashes |
| `MerkleTree.Soundness` | src/merkleblock.cpp:75-155 | With an injective pair hash, any bits and hashes that lead to the block's root yield matches that are a selection of its transactions, in order |
| `PartialMerkleTree.CPartialMerkleTree.TraverseAndBuild` | src/merkleblock.cpp:56-73 | Appends the encoding of the node to bits and hashes |
| `PartialMerkleTree.CPartialMerkleTree.HashOf` | src/merkleblock.cpp:38-54 | The recursive hash of a node, the left one doubled beyond the end |
| `PartialMerkleTree.CPartialMerkleTree.constructor` | src/merkleblock.cpp:106-119 | A new tree is the encoding of the list and the mask |
| `PartialMerkleTree.CPartialMerkleTree.TraverseAndExtract` | src/merkleblock.cpp:75-104 | Computes the decoder, counters and failure flag included |
| `PartialMerkleTree.CPartialMerkleTree.ExtractMatches` | src/merkleblock.cpp:123-155 | Computes the decoder with all its checks |
| `PartialMerkleTree.WireRoundTrip` | src/merkleblock.h:88-106 | The round trip still holds after packing the bits into bytes and unpacking them |
| `BlockMerkle.CBlock.BuildMerkleTree` | src/primitives/block.cpp:76-100 | The level-by-level loops give the root that partial trees lead to, zero for no transactions, and flag exactly the lists with a repetition at the end of some level |
| `BlockMerkle.TopIsRoot` | src/primitives/block.cpp:82-100 | The top of the levels is the root of the recursive tree |
| `BlockMerkle.FlagTellsApart` | src/primitives/block.cpp:60-75 | With an injective hash, lists with trees of the same height and the same root are equal, unless one of them is flagged |
| `BlockMerkle.LastTwice` | src/primitives/block.cpp:46-59 | A list of odd length has the same root with its last transaction there twice; that list is flagged |
| `BlockMerkle.CBlock.GetMerkleBranch` | src/primitives/block.cpp:102-116 | The partners of a transaction on all levels, read from the vector |
| `BlockMerkle.CheckMerkleBranch` | src/primitives/block.cpp:118-131 | Folds a branch up from a hash; zero for no place |
| `BlockMerkle.BranchLeads` | src/primitives/block.cpp:102-131 | The branch of each transaction leads from it to the root |
| `BlockMerkle.BranchSound` | src/primitives/block.cpp:118-131 | With an injective hash, no other hash has a branch of that length from that place to the root, and the transaction no other branch |
| `CheckQueue.StepKeeps` | src/checkqueue.h:69-158 | Every step of master or worker, in any order, keeps the invariant; a result returned to the master is true exactly when every check added in the round is |
| `CheckQueue.Reachable` | src/checkqueue.h:69-158 | So it holds in every state of every interleaving, for any number of workers |
| `CheckQueue.WaitResult` | src/checkqueue.h:91-143 | However the threads are scheduled, Wait returns true exactly if every check is true that the run added since Wait returned before |
| `CheckQueue.AddWakes` | src/checkqueue.h:145-158 | Several checks wake every waiting worker, one check wakes one that was not woken yet, if there is one; the master is never woken by Add |
| `CheckQueue.EveryCheckOnce` | src/checkqueue.h:56-60 | nTodo counts the checks queued and in flight; every check added is queued, in flight or finished, once |
| `CheckQueue.TakesBatch` | src/checkqueue.h:110-117 | A thread takes the last checks of the queue, the last first: one, or as many as the batch size and an even share allow |
| `CheckQueue.BatchesBounded` | src/checkqueue.h:109-111 | In no state of any interleaving does a thread hold more checks than the batch size, or one |
| `CheckQueue.NoLostWakeup` | src/checkqueue.h:91-104 | While the master is in Wait, some thread can take a step that is not entering: no wakeup is lost |
| `CheckQueue.GenuineStepsRunOut` | src/checkqueue.h:76-126 | Steps that are not spurious wakeups make progress until the master returns |
| `CheckQueue.WaitReturns` | src/checkqueue.h:76-126 | In every run without spurious wakeups that is longer than the measure of its first state, the master returns |
| `CheckQueue.WaitCanReturn` | src/checkqueue.h:69-104 | From every state with the master in Wait there is such a run to its return |
| `CheckQueue.IdleBetweenRounds` | src/checkqueue.h:164-168 | Between rounds the queue is idle, as the controller asserts |
| `CheckQueue.ShareIsQuotient` | src/checkqueue.h:110 | The batch share used by the model is the integer quotient |
| `Radix.EncodeFits` | src/base58.cpp:91-92 | n bytes always fit n * 138 / 100 + 1 digits of base 58 |
| `Radix.DecodeFits` | src/base58.cpp:33-34 | n characters always fit n * 733 / 1000 + 1 bytes |
| `Radix.MulAdd` | src/base58.cpp:43-47 | The carry loop multiplies and adds in place; digits and left-over carry together are the exact result |
| `Radix.DigitsUnique` | src/base58.cpp:56-59 | Digits without a leading zero are the digits of their value |
| `Base58.CharDigit` | src/base58.cpp:20 | Each digit has its own character of the alphabet, found again by position; none is a space, and 1 is the zero |
| `Base58.AlphabetIs` | src/base58.cpp:20 | The alphabet is the letters and digits without 0, O, I and l |
| `Base58.SpaceCodes` | src/base58.cpp:25-52 | The characters passed over as spaces, by their codes |
| `Base58.KnownEncodings` | src/test/data/base58_encode_decode.json:2-4 | The encodings the repository lists for some byte strings |
| `Base58.ToBase58` | src/base58.cpp:91-104 | No carry is left for any byte, and the buffer ends with the value of the bytes |
| `Base58.EncodeBase58` | src/base58.cpp:83-116 | The loops compute the encoding |
| `Base58.ReadDigits` | src/base58.cpp:36-50 | No carry is left for any character; stops at a space, fails at a character outside the alphabet |
| `Base58.DecodeBase58` | src/base58.cpp:22-66 | The loops compute the decoding, failure included |
| `Base58.DecodeEncode` | src/base58.cpp:22-116 | Decoding the encoding gives back every byte string |
| `Base58.EncodeDecode` | src/base58.cpp:22-116 | Exactly the strings that are one word of the alphabet between spaces decode, and encoding the result gives the word back |
| `Base58.StrippedWord` | src/base58.cpp:24-55 | That word is the whole string but for the spaces around it |
| `Base58.DecodeEncodeCheck` | src/base58.cpp:128-152 | The round trip with a checksum, for any hash function |
| `Base58.EncodeDecodeCheck` | src/base58.cpp:128-152 | What decodes with a checksum is, apart from spaces, the encoding of the result, and conversely |
| `Base58.EncodeBase58Check` | src/base58.cpp:128-135 | Appends four bytes of the hash and encodes |
| `Base58.DecodeBase58Check` | src/base58.cpp:137-152 | Decodes, compares the four bytes and cuts them off |
| `Compressor.DecompressCompress` | src/compressor.cpp:137-180 | Decompressing undoes compressing, for every natural number |
| `Compressor.CompressDecompress` | src/compressor.cpp:137-180 | Every number is the compressed form of one amount |
| `Compressor.KnownAmounts` | src/test/compress_tests.cpp:41-46 | The compressed amounts the repository lists |
| `Compressor.CompressFits` | src/compressor.cpp:137-154 | The compressed amount fits 64 bits up to (2^64 - 1) / 9 + 1 |
| `Compressor.WordRoundTrip` | src/compressor.cpp:137-180 | On 64-bit words an amount survives compression and decompression exactly if it is at most (2^64 - 1) / 9 + 1 or ends in a zero |
| `Compressor.AllowedAmountLost` | src/chainparams.cpp:120 | The first amount that is lost is within the limit the main network sets |
| `Compressor.CompressAmount` | src/compressor.cpp:137-154 | On words, the loop computes the compressed amount modulo 2^64; its assert holds |
| `Compressor.DecompressAmount` | src/compressor.cpp:156-180 | On words, the loop computes the amount modulo 2^64 |
| `Chain.BlockIndex.GetAncestor` | src/main.cpp:5337-5358 | Following skip pointers where it pays leads to the same ancestor as following predecessors |
| `Chain.BlockIndex.constructor` | src/main.cpp:5365-5369 | A block indexed on top of another gets a skip pointer to the ancestor at its skip height |
| `Chain.SkipHeightIs` | src/main.cpp:5323-5335 | An even height skips to itself without its lowest binary one, an odd one to the height below without its two lowest ones, and one |
| `Chain.CChain.SetTip` | src/chain.cpp:13-24 | From any valid chain, the early stop leaves the complete list of ancestors of the new tip |
| `Chain.CChain.FindFork` | src/chain.cpp:55-62 | The highest block that the chain and a block have in common, or none if there is none |
| `Chain.CChain.GetLocator` | src/chain.cpp:26-53 | The hashes at the locator heights, from a block or the tip, on the chain or off it |
| `Chain.LocatorShape` | src/chain.cpp:28-50 | Locator heights strictly descend to 0, in at most 11 entries or 12 more than the logarithm of the height |
| `Chain.LocatorAt` | src/chain.cpp:28-50 | The first eleven steps go back by one block, each later one by twice as many as the one before, the last to the first block |
| `Chain.CChain.NextIs` | src/chain.h:585-592 | Exactly the blocks of the chain below its tip have a successor, whose predecessor they are |
| `Chain.CChain.Tip` | src/chain.h:549-562 | The last block, or the last proof-of-stake block, or the first block |
| `Chain.SameTip` | src/chain.h:572-577 | Comparing sizes and last blocks compares whole chains |
| `Accumulators.ParseCheckpoint` | src/accumulators.cpp:18-24 | From a checkpoint, each checksum is found at the place of its denomination |
| `Accumulators.CheckpointFits` | src/accumulatormap.cpp:73-86 | A checkpoint is below 2^256 |
| `Accumulators.OwnMints` | src/accumulatormap.cpp:51-63 | Each accumulator takes in exactly the mints of its denomination, in order |
| `Accumulators.AccumulatorMap.Load` | src/accumulatormap.cpp:34-48 | Succeeds exactly when all checksums are known, and then has their values |
| `Accumulators.AccumulatorMap.GetCheckpoint` | src/accumulatormap.cpp:73-86 | The checksums of all accumulators, one after the other |
| `Accumulators.ValueStore.DatabaseChecksums` | src/accumulators.cpp:65-74 | Every value is stored under its checksum if none collide; nothing stored is dropped, and nothing goes under zero unless a checksum is zero |
| `Accumulators.AccumulateWindow` | src/accumulators.cpp:182-223 | Takes in the blocks from height - 20 to height - 11 that are not before the start, each once |
| `Accumulators.TopIs` | src/accumulators.cpp:185-187 | The first block not taken in is the multiple of ten from nineteen to ten below the height |
| `Accumulators.CalculateAccumulatorCheckpoint` | src/accumulators.cpp:155-237 | On a reliable history: succeeds exactly when the blocks can be read, and gives the checkpoint of all mints from the start through (height rounded down to ten) - 11, or 0 while there are none |
| `Accumulators.ConnectChain` | src/main.cpp:3811-3826 | Along a whole chain every block records that checkpoint, given that no checksums collide, no fresh accumulator has the checksum zero, and no eight checksums are all zero |
| `StakeModifier.SectionsGrow` | src/kernel.cpp:57-62 | Sections get longer from round to round, the last three times as long as the first |
| `StakeModifier.SectionIs` | src/kernel.cpp:57-62 | Section n is 3780 seconds divided by 189 - 2n, rounded down |
| `StakeModifier.IntervalIs` | src/kernel.cpp:65-72 | All sections together are 2087 seconds |
| `StakeModifier.SelectBlockFromCandidates` | src/kernel.cpp:77-135 | Succeeds exactly when a candidate is left, and no candidate before the search ends is missing from the block index; picks the eligible one with the least selection hash, the first of several |
| `StakeModifier.PickMeans` | src/kernel.cpp:89-130 | The pick is the best among the unselected candidates up to the stop, or the first unselected one if there are none |
| `StakeModifier.PickFavoursStake` | src/kernel.cpp:99-121 | On the raw hashes: a proof-of-work block is picked over an eligible proof-of-stake block only if its hash is 2^32 times smaller, one with proof of stake over proof of work unless the opposite holds, and within a kind the least; before the upgrade height proof-of-stake blocks are hashed with zero |
| `StakeModifier.PickUnique` | src/kernel.cpp:89-130 | There is only one such pick |
| `StakeModifier.SelectRounds` | src/kernel.cpp:193-213 | No round fails for distinct candidates; min(64, n) are picked, and the modifier is made of their entropy bits |
| `StakeModifier.PicksDiffer` | src/kernel.cpp:201-209 | The picks are pairwise different blocks |
| `StakeModifier.BitAt` | src/kernel.cpp:205-206 | Bit r of the modifier is the entropy bit of pick r |
| `StakeModifier.CollectCandidates` | src/kernel.cpp:177-191 | The blocks back to the first one older than the interval, by ascending time, and by ascending hash at the same time |
| `StakeModifier.GetLastStakeModifier` | src/kernel.cpp:43-54 | The modifier of the last block that generated one |
| `StakeModifier.DueMeans` | src/kernel.cpp:168-169 | A new modifier is due exactly if a full minute came after the last one, up to the last block |
| `StakeModifier.SelectionStartIs` | src/kernel.cpp:174-175 | Candidates are those of the 2087 seconds before the last full minute, and after it |
| `StakeModifier.ComputeNextStakeModifier` | src/kernel.cpp:150-241 | Genesis, second block, kept modifier, or a new one from the rounds; fails exactly when no block ever generated one |
| `MasternodePayments.AddPayee` | src/masternode-payments.h:107-120 | More votes for a listed payee, or a new one at the end |
| `MasternodePayments.GetPayee` | src/masternode-payments.h:122-135 | The first payee with most votes |
| `MasternodePayments.HasPayeeWithVotes` | src/masternode-payments.h:137-146 | Whether a payee is listed with enough votes |
| `MasternodePayments.IsTransactionValid` | src/masternode-payments.cpp:518-578 | A transaction passes unless some payee has six votes and none such is paid what is required |
| `MasternodePayments.RecordedTallied` | src/masternode-payments.cpp:491-516 | One more recorded winner keeps the tally exact |
| `MasternodePayments.CleanedTallied` | src/masternode-payments.cpp:623-650 | Cleaning keeps the tally exact, because a block goes with all of its votes or keeps them all |
| `MasternodePayments.Run` | src/masternode-payments.cpp:491-650 | After any run of adding, cleaning and clearing: distinct payees per height, exactly those voted for, each with the number of recorded votes |
| `MasternodePayments.CMasternodePayments.AddWinningMasternode` | src/masternode-payments.cpp:491-516 | Records a winner exactly when the block is known and the hash is new |
| `MasternodePayments.CMasternodePayments.CleanPaymentList` | src/masternode-payments.cpp:623-650 | A vote, and a block, stays exactly if it is at most a thousand blocks old, or four times its age is at most five times the number of masternodes; nothing else changes |
| `MasternodePayments.CMasternodePayments.GetBlockPayee` | src/masternode-payments.cpp:451-458 | A payee with most recorded votes for the height; none exactly when no vote is recorded |
| `MasternodePayments.CMasternodePayments.CanVote` | src/masternode-payments.h:268-281 | False exactly when the last height remembered for the masternode is the same |
| `MasternodePayments.OneVoteEach` | src/masternode-payments.h:266-281 | Over every run of requests, no masternode is granted two votes for one height exactly if all its requests for a height come in a row |
| `MasternodePayments.VotesTwice` | src/masternode-payments.h:266-281 | Asking for heights 5, 6 and 5, a masternode may vote three times |

## Left out

- Integer widths: amounts, heights, counts and ids are unbounded integers; only amount compression is modelled modulo 2^64. The shifts in `CalcTreeWidth` and `TraverseAndBuild`, which overflow for huge transaction counts, are exact.
- CoinsCodec.Serialize: variable-length integers and compressed outputs are single tokens of the stream, the former with the number that their bytes, by `VarInts`, encode; the byte format of outputs is not modelled.
- Coins.Spend: coins are values, because the program copies and swaps them as values; updating `vout` in place shows as a new value.
- CoinsCache.CoinsViewDB.BatchWrite: the batch of LevelDB is applied entry by entry; failing writes are not modelled.
- CoinSelection.getSpends: requires an unused mint for each wanted denomination, because without one, by `LoopsEnd`, the loop of the program does not end.
- CoinSelection.SelectMintsFromList: requires that the loops over the mints end, which they do, by `SupplyEnds`, whenever the holdings count unused mints only; denominations are positions in the table.
- AddrManDisk.Unserialize: loading is into a manager whose maps are empty, as a new one's are; entries left in the maps, which `Clear` does not drop, would keep places in a vector that is gone, and pruning would swap them out of range. The image is a record of counts, entries and index lists rather than a byte stream; negative counts, and the partly filled state after a read error, are not modelled.
- Address selection by chance (`Select_`, `GetChance`): probabilities are not modelled.
- CheckQueue.Reachable: condition variables allow spurious wakeups, checks are booleans, and the destruction of the queue, which waits for nothing, is not a step.
- MerkleTree.Soundness: assumes that the hash of a pair is injective and that the root is not the zero value that stands for failure.
- Base58.DecodeBase58: the string is what precedes the terminating zero character; the six runs of the alphabet are joined from shorter strings.
- Chain.BlockIndex.GetAncestor: clearing the lowest set bit is a recursion on numbers instead of a bitwise operation; a block's links are fixed when it is indexed.
- Accumulators.CalculateAccumulatorCheckpoint: a shutdown request counts as an unreadable block; from the start height on, no height below 20 is a multiple of ten, because the program then reads a block twenty below that does not exist; erasing checksums during a reorganisation is not modelled, so the database is assumed to be retained.
- Accumulators.ConnectChain: it is assumed that no two values of a set of accumulators share a checksum, that no fresh accumulator has the checksum zero, that no eight checksums are all zero, and that the database has no entry under zero at first, because values are found by checksums only, and a checkpoint of zero stands for fresh accumulators and would be looked up.
- StakeModifier.ComputeNextStakeModifier: the chain is a sequence of blocks instead of linked ones; the modifier of the second block, which the program makes from the address of a string, is a parameter; sorting is an insertion sort.
- MasternodePayments.IsTransactionValid: the required payment is a parameter; sporks and the masternode list are not modelled.
- Networking, files, logging, wallets, scripts and consensus parameters are not modelled.
