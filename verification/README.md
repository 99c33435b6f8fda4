# Dafny model of the Jiaozi node's core

This project models the parts of the C++ node under `2018/Jiaozi-new/src` whose correctness is not seen
from reading one function, and proves what they are for. Every C++ `assert` in the functions modelled
is a proof obligation here.

- **Check queue** (`CheckQueue.dfy`, `CheckQueueWrap.dfy`): a master and any number of workers under one mutex. Each critical
  section is an atomic step on the guarded fields, carried out in place by the class `CCheckQueue`; a
  system of threads takes such steps in any order, with spurious wake-ups. The verdict of every `Wait()`,
  the absence of lost wake-ups and the end of every `Wait()` are proved over all runs, and it is proved for
  exactly which numbers of threads and batch sizes the 32-bit counter is wide enough.
- **Layered coin cache** (`Coins.dfy`, `CoinsView.dfy`, `CoinsCache.dfy`): caches of any height on a bottom
  store, with DIRTY and FRESH flags. What a layer shows is a plain map in which pruned is absent.
- **Coin storage** (`CoinsSerial.dfy`, `VarInt.dfy`, `AmountCodec.dfy`, `ScriptCodec.dfy`): the bit mask
  format of coins down to its bytes, with the integer, amount and script codecs under it.
- **Address manager** (`AddrTables.dfy`, `AddrOps.dfy`, `AddrMan.dfy`, `AddrCheck.dfy`, `AddrFile.dfy`,
  `AddrRoundTrip.dfy`, `AddrLoad.dfy`, `MapOrder.dfy`): every operation as a function on a state value, the invariant they
  keep, a class that carries them out in place, the authors' own `Check_`, the file format, and what
  becomes of any file whatever.
- **256-bit arithmetic** (`ArithUint256.dfy`, `Limbs.dfy`, `Bits.dfy`, `Products.dfy`, `Compact.dfy`): limb
  loops in place on an array, proved against the integers, and the compact format.
- **Block skip list and active chain** (`SkipList.dfy`, `Chain.dfy`).
- **Base58** (`Base58.dfy`, `Radix.dfy`): radix conversion in a fixed buffer.
- **Bounded caches** (`CacheMultiMap.dfy`, `CacheMap.dfy`): lists of nodes with an index of references.
- **Bloom filters** (`Bloom.dfy`) and **mnemonic phrases** (`Mnemonic.dfy`). `Wrappers.dfy` has the
  optional values, `Numbers.dfy` the bytes and machine integers. `Vectors.dfy` has the examples that the
  documentation and the tests of the node give for the codecs.

`dafny verify dfyconfig.toml` checks the whole project.

## How to read it

A class has the fields of the C++ class and methods that change them in place. Where an operation is more
than a few lines, a function on values says what it computes, the method ensures that the fields end up so,
and lemmas prove what the function means. Random numbers, times and keys drawn at random are arguments;
hash functions, the word list and elliptic curve arithmetic are parameters, with the one law each is relied
on for: SHA-256 gives 32 bytes, the word list has 2048 different words of one to nine letters, and a full
public key is determined by one coordinate and the parity of the other. Loops that would be long to prove
in one piece have their bodies in methods of their own. Lemmas whose names end in `Means`, `Says`,
`Is` or `Iff` tell what an operation or a format does without the functions that compute it.

What the code does differently from what it seems to promise:

- With very large batches three workers can hold 2^32 checks at once. Then `nTodo` wraps to zero, and `Wait()`
  returns true before they have run (`CheckQueueWrap.EarlyVerdict`, `EveryVerdictIff`, `ThreeWorkers`).
- A check added after `Wait` on the same controller makes the next controller's assertion fail
  (`CheckQueue.LateAddTripsAssertion`, `LateAddHappens`).
- `Flush` passes a null block hash on to a cache below, which then forgets its own
  (`CoinsCache.CCoinsViewCache.FlushedBest`, `CoinsCache.FlushForgets`).
- `x *= x` gives zero (`ArithUint256.BaseUint.MulAssign`).
- `CAddrMan::Clear()` does not empty `mapInfo` and `mapAddr` (`AddrRoundTrip.ClearLeavesEntries`), and `Add_`
  reports "new" also for an address that has already been dropped again (`AddrOps.AddKeeps`, `NewButDropped`).
- `Unserialize` does not look for repeated addresses. The later entry takes the address in `mapAddr`, and an entry
  pruned for being in no table takes it out, so that an entry in a table is not found or not under its own id
  (`AddrLoad.LoadedConsistentIff`, `Overwritten`, `Erased`).
- In the table in the description of variable-length integers (serialize.h) the lines for 16511 and 65535 are wrong: they
  have the bytes of 32895 and 65407 (`Vectors.VarInts`).
- Negative versions and heights of coins do not survive storage (`CoinsSerial.CoinsRoundTrip`).
- MAX_MONEY is the largest 64-bit integer here, and amounts below it exist that storage changes
  (`AmountCodec.NotRestored`): exactly those that overflow when compressed (`AmountCodec.RoundTrip64`).
- A `CacheMultiMap` with maximum zero is unlimited, inserting a duplicate can evict, and its copies have an
  index into the original (`CacheMultiMap.ZeroIsNoLimit`, `EvictsTheOldest`, `CopyIsLinkedIff`).
- `UpdateEmptyFull` is called on filters just received, whose flags say "full" whatever their bits; it changes
  their answers unless all bits are set, or some are and there is no hash function
  (`Bloom.ReceivedChangesIff`, `Bloom.UpdateChangesNothingIff`).
- The walk by skip pointers, which a comment calls O(log n), takes (k^2 - 1) / 4 turns at least from height 2^k to
  height 2, and k^2 + 1 at most between any heights up to 2^k (`SkipList.WalkIsLong`, `WalkIsShort`).
- A cache read from a stream can repeat a pair or have a wrong size field, and then is not in order
  (`CacheMultiMap.CacheMultiMap.RebuildIndex`, `CacheMap.CacheMap.RebuildIndex`).
- `FromData` and `Generate` make phrases of 15 and 21 words that `Check` rejects (`Mnemonic.MadeIsAcceptedIff`).

## Model

| member | source | states |
|---|---|---|
| `CheckQueue.EveryVerdict` | 2018/Jiaozi-new/src/checkqueue.h:69-158 | Over every interleaving of a master and any number of workers with any batch size, each `Wait()` that returned said true exactly when every check added before it ran and passed, and false exactly when one ran and failed; the verdicts and what is pending account for every check ever added. Between two returns fewer than 2^32 checks may be added, or any number where the workers are few enough |
| `CheckQueueWrap.EveryVerdictIff` | 2018/Jiaozi-new/src/checkqueue.h:69-158 | For every number of threads and every batch size: all verdicts of all interleavings are right, whatever is added, if and only if the sum of the most that each worker can take is below 2^32 |
| `CheckQueueWrap.EarlyVerdict` | 2018/Jiaozi-new/src/checkqueue.h:80-110 | Where that sum reaches 2^32 a schedule makes the first `Wait()` return true while 2^32 of the checks added are still to be run |
| `CheckQueueWrap.ThreeWorkers` | 2018/Jiaozi-new/src/checkqueue.h:105-110 | Two workers are always few enough; three with batches of 2^31 - 1 are not |
| `CheckQueueWrap.SmallIsFew` | 2018/Jiaozi-new/src/checkqueue.h:105-110 | Workers hold no more than their number times the batch size |
| `CheckQueue.LayersBound` | 2018/Jiaozi-new/src/checkqueue.h:105-110 | If of all workers fewer than k hold more than the k-th in the loop can take, for every k, all together they hold no more than the sum of what each can take |
| `CheckQueue.StepKeepsInv` | 2018/Jiaozi-new/src/checkqueue.h:76-126 | Every atomic step of every thread keeps the agreement of `nTodo`, `nIdle`, `nTotal`, `fAllOk` and the queue with what all threads hold |
| `CheckQueue.InitInv` | 2018/Jiaozi-new/src/checkqueue.h:131-131 | The constructed queue with any number of threads and any batch size satisfies that invariant |
| `CheckQueue.NoLostWakeUp` | 2018/Jiaozi-new/src/checkqueue.h:91-104 | A master asleep and not notified faces an empty queue and a positive `nTodo`, and some worker holds a batch it has not committed |
| `CheckQueue.WaitIsBounded` | 2018/Jiaozi-new/src/checkqueue.h:76-126 | No schedule keeps one `Wait()` busy for more steps than a measure of the state it began in |
| `CheckQueue.WaitIsNotStuck` | 2018/Jiaozi-new/src/checkqueue.h:91-126 | Inside `Wait()` some thread can always take a step that changes something, without a spurious wake-up |
| `CheckQueue.StepDescends` | 2018/Jiaozi-new/src/checkqueue.h:76-126 | Inside `Wait()` each step of a thread changes nothing, ends the wait or lowers the measure |
| `CheckQueue.ReturnMeansDone` | 2018/Jiaozi-new/src/checkqueue.h:92-100 | Only the master returns from the loop, and then nothing is queued or held by any thread |
| `CheckQueue.VerdictIsGood` | 2018/Jiaozi-new/src/checkqueue.h:92-100 | The value returned, taken from `fAllOk`, is the right verdict on the checks since the last return |
| `CheckQueue.IdleIff` | 2018/Jiaozi-new/src/checkqueue.h:164-168 | `IsIdle` is true exactly when no thread is at work, no check has failed, and the length of the queue is a multiple of 2^32 |
| `CheckQueue.IdleMeans` | 2018/Jiaozi-new/src/checkqueue.h:164-168 | `IsIdle` is true exactly when no check is outstanding and none has failed, while fewer than 2^32 are outstanding |
| `CheckQueue.ControlFindsIdle` | 2018/Jiaozi-new/src/checkqueue.h:184-191 | The assertion in the controller's constructor holds in every reachable state in which nothing has been added since the last `Wait()` returned |
| `CheckQueue.AddLeavesIdleIff` | 2018/Jiaozi-new/src/checkqueue.h:146-168 | In such a state a call of `Add` leaves the queue idle exactly if the number of checks is a multiple of 2^32 |
| `CheckQueue.PromptRunFindsIdle` | 2018/Jiaozi-new/src/checkqueue.h:184-211 | No run in which checks are added before `Wait` and not after it makes the assertion of any controller fail |
| `CheckQueue.LateAddTripsAssertion` | 2018/Jiaozi-new/src/checkqueue.h:193-211 | In every reachable state after `Wait` with nothing added since, adding any other number of checks and making the next controller fails its assertion |
| `CheckQueue.LateAddHappens` | 2018/Jiaozi-new/src/checkqueue.h:193-211 | Such a state is reached: a run of one thread that ends with the failing assertion |
| `CheckQueue.AddedIsKept` | 2018/Jiaozi-new/src/checkqueue.h:146-158 | No check is dropped or invented: what was added is what the verdicts and the current round speak about |
| `CheckQueue.FailureSkipsTheRest` | 2018/Jiaozi-new/src/checkqueue.h:118-124 | Once the queue knows of a failure no check that is still queued is run: in any interleaving until the next `Wait()` returns each of them is skipped or not looked at yet, and the next verdict has skipped them all |
| `CheckQueue.AddWakes` | 2018/Jiaozi-new/src/checkqueue.h:146-158 | Adding one check wakes exactly one sleeping worker if there is one, adding more wakes every sleeping worker, and neither wakes the master or anybody who is awake |
| `CheckQueue.BatchSizeFits` | 2018/Jiaozi-new/src/checkqueue.h:105-110 | A batch is not empty, not larger than the queue and not larger than the maximum |
| `CheckQueue.PopManyContents` | 2018/Jiaozi-new/src/checkqueue.h:111-117 | A batch and what stays in the queue are together the queue before |
| `CheckQueue.HeadCounters` | 2018/Jiaozi-new/src/checkqueue.h:78-104 | While a thread holds the mutex at the head of the loop the counters agree with all the others; for a master that faces an empty queue `nTodo` is zero exactly when nothing is in flight |
| `CheckQueue.CCheckQueue.EnterSection` | 2018/Jiaozi-new/src/checkqueue.h:78-120 | From taking the mutex to giving it back: commits or joins, then returns, sleeps or takes a batch, as the atomic step says; a batch is to be run exactly if nothing has failed, this thread's own batch included |
| `CheckQueue.CCheckQueue.AwakenSection` | 2018/Jiaozi-new/src/checkqueue.h:101-120 | The section that begins when the condition variable lets a thread go on; a batch is to be run exactly if nothing has failed |
| `CheckQueue.CCheckQueue.DecideSection` | 2018/Jiaozi-new/src/checkqueue.h:91-119 | The inner loop's outcome: which of the three and when, the batch popped one check at a time from the end, and whether it is to be run |
| `CheckQueue.CCheckQueue.IsIdleSection` | 2018/Jiaozi-new/src/checkqueue.h:164-168 | Answers for the fields as they are while the mutex is held |
| `CheckQueue.CCheckQueue.Add` | 2018/Jiaozi-new/src/checkqueue.h:146-153 | Pushes the checks in order behind the others and counts them modulo 2^32 |
| `CoinsCache.Replay` | 2018/Jiaozi-new/src/coins.cpp:61-221 | Any sequence of changes at the top and new coins under their documented precondition, and of lookups, evictions and flushes at any level of a stack of any height, leaves the top showing what the changes alone do to a plain map |
| `CoinsCache.CCoinsViewCache.Flush` | 2018/Jiaozi-new/src/coins.cpp:207-212 | The layer below then shows what this layer showed, this layer shows the same and is empty, the flags of every layer stay truthful, and it says exactly when the layer still stands for the same best block |
| `CoinsCache.CCoinsViewCache.BatchWrite` | 2018/Jiaozi-new/src/coins.cpp:162-205 | Writes the entries of a child: what this layer shows becomes the child's view of it, its own flags stay truthful towards the layer below, and for every id it says what entry with what flags is cached afterwards |
| `CoinsView.WriteEntryRefines` | 2018/Jiaozi-new/src/coins.cpp:165-199 | Writing one entry of a child is a plain update of what shows, with pruned as absent, in each of the branches on DIRTY and FRESH |
| `CoinsCache.CCoinsViewCache.WriteOne` | 2018/Jiaozi-new/src/coins.cpp:165-199 | For one entry of a child: none without DIRTY is written; pruned coins that are FRESH here, or new here and FRESH in the child, leave nothing; all others are DIRTY, and FRESH as the entry here was or else as the child's |
| `CoinsCache.CCoinsViewCache.FetchCoins` | 2018/Jiaozi-new/src/coins.cpp:72-88 | A lookup caches at most a copy of the entry below, FRESH exactly if nothing unspent is there, changes nothing else that is cached and nothing that shows |
| `CoinsView.FetchShowsNothingNew` | 2018/Jiaozi-new/src/coins.cpp:76-87 | A copy of the entry below, FRESH if pruned, shows nothing new and is truthful |
| `CoinsCache.CCoinsViewCache.GetCoins` | 2018/Jiaozi-new/src/coins.cpp:90-97 | Unpruned coins are returned exactly when they show |
| `CoinsCache.CCoinsViewCache.HaveCoins` | 2018/Jiaozi-new/src/coins.cpp:138-145 | Testing for any output at all agrees with "not pruned" because coins are kept clean, but for the entry a live modifier holds |
| `CoinsCache.CCoinsViewCache.ModifyCoins` | 2018/Jiaozi-new/src/coins.cpp:99-118 | Hands out the entry that shows, marked DIRTY; one that was not cached before is FRESH exactly if nothing unspent is below, and one that was keeps its flag; nothing that shows and no other entry changes |
| `CoinsCache.CCoinsViewCache.ModifyNewCoins` | 2018/Jiaozi-new/src/coins.cpp:120-127 | With nothing unspent cached or below under the id, hands out empty coins, FRESH and DIRTY, truthfully |
| `CoinsView.NewCoinsTruthfulIff` | 2018/Jiaozi-new/src/coins.h:429-438 | Marking new coins FRESH without looking is truthful exactly when nothing unspent is below; otherwise spending them later brings the old coins back |
| `CoinsCache.CCoinsModifier.Release` | 2018/Jiaozi-new/src/coins.cpp:284-296 | The destructor: cleaned coins show, the entry is dropped exactly if it is FRESH and pruned, no other is touched, and the usage is exact again |
| `CoinsCache.MadeAndSpent` | 2018/Jiaozi-new/src/coins.cpp:99-118 | Coins made and spent again in one layer, under an id that was neither cached nor below, leave the cache as it was |
| `CoinsCache.MadeFlushedAndSpent` | 2018/Jiaozi-new/src/coins.cpp:165-212 | Coins made, flushed to another cache, spent and flushed again leave nothing in either |
| `CoinsView.ReleaseShows` | 2018/Jiaozi-new/src/coins.cpp:288-291 | Dropping a FRESH pruned entry or keeping the cleaned one shows the same |
| `CoinsView.FreshPrunedShowsNothing` | 2018/Jiaozi-new/src/coins.cpp:290-291 | Erasing a FRESH pruned entry never changes what shows |
| `CoinsView.DirtyEntryShows` | 2018/Jiaozi-new/src/coins.cpp:115-117 | An entry marked DIRTY may say anything and stays truthful, if FRESH is; the update is what shows |
| `CoinsCache.CCoinsModifier.Assign` | 2018/Jiaozi-new/src/coins.h:373-374 | Any change through the reference is a change of the one entry that shows |
| `CoinsCache.CCoinsViewCache.Uncache` | 2018/Jiaozi-new/src/coins.cpp:214-221 | Erases exactly an entry without flags, and nothing that shows changes |
| `CoinsView.UncacheShowsNothingNew` | 2018/Jiaozi-new/src/coins.cpp:217-219 | An entry without flags repeats the view below |
| `CoinsCache.CCoinsViewCache.FlushedBest` | 2018/Jiaozi-new/src/coins.cpp:152-160 | Exactly when flushing keeps the block a layer stands for, as `Flush` ensures; a flush with a null hash makes the layer below forget its own |
| `CoinsCache.FlushForgets` | 2018/Jiaozi-new/src/coins.cpp:147-212 | A cache whose best block is set to 7 has a null best block after an empty child is flushed into it |
| `CoinsCache.CCoinsViewCache.GetBestBlock` | 2018/Jiaozi-new/src/coins.cpp:152-156 | The first block hash found on the way down; it is cached here and, where they were asked, in the layers below, with no layer changing what it stands for |
| `CoinsCache.CCoinsViewCache.StaysValidAbove` | 2018/Jiaozi-new/src/coins.cpp:207-212 | Flushing a layer in the middle of a stack leaves the layers above in order |
| `CoinsView.CCoinsViewDB.GetCoins` | 2018/Jiaozi-new/src/txdb.cpp:40-42 | Finds unpruned coins exactly where the store shows them |
| `CoinsView.CCoinsViewDB.BatchWrite` | 2018/Jiaozi-new/src/txdb.cpp:55-76 | The bottom store: for every id what is stored afterwards; dirty entries are written, pruned ones erased, and a null hash keeps the old one |
| `CoinsView.StoreEntryRefines` | 2018/Jiaozi-new/src/txdb.cpp:60-66 | Storing one entry is a plain update of what the store shows |
| `Coins.CleanedCoins` | 2018/Jiaozi-new/src/coins.h:112-118 | `Cleanup` keeps every available output, is idempotent, and leaves nothing exactly of pruned coins |
| `Coins.Spend` | 2018/Jiaozi-new/src/coins.cpp:35-42 | Fails exactly for an output that is not available; otherwise that one and no other is gone, and the rest is clean |
| `Coins.Cleanup` | 2018/Jiaozi-new/src/coins.h:112-118 | Drops exactly the null outputs at the end |
| `CoinsSerial.CoinsRoundTrip` | 2018/Jiaozi-new/src/coins.h:178-239 | Unserializing serialized coins gives them back cleaned, each available output as it can be stored, with nothing of what follows consumed; version and height come back exactly when not negative |
| `CoinsSerial.CleanCoinsComeBack` | 2018/Jiaozi-new/src/coins.h:207-239 | Cleaned unpruned coins come back unchanged exactly when version and height are not negative, every null output is the default one, and no other has rounds or an amount that overflows when compressed |
| `CoinsSerial.WrittenDescribes` | 2018/Jiaozi-new/src/coins.h:28-37 | In the bytes of any coins, by arithmetic on the header code alone: bit 0 is `fCoinBase`, bits 1 and 2 say whether the first two outputs are available, the rest counts the mask bytes that are not zero, less one if neither is; and the mask has a bit for exactly the available ones of the others and ends with a byte that is not zero |
| `CoinsSerial.ReadDescribes` | 2018/Jiaozi-new/src/coins.h:207-239 | Any bytes that are accepted say the same of the coins read from them |
| `Vectors.FirstExample` | 2018/Jiaozi-new/src/coins.h:39-53 | The first example in the description of the format: these coins have these bytes |
| `Vectors.SecondExample` | 2018/Jiaozi-new/src/coins.h:55-72 | The second one, with a mask of two bytes |
| `CoinsSerial.MaskIsRead` | 2018/Jiaozi-new/src/coins.h:218-229 | Counting down the bytes that are not zero stops exactly behind the last mask byte, with the availability of every output read |
| `CoinsSerial.SomethingToStore` | 2018/Jiaozi-new/src/coins.h:182-184 | An output is available exactly if one of the first two is or some mask byte is not zero |
| `CoinsSerial.UnprunedHasCode` | 2018/Jiaozi-new/src/coins.h:182-184 | The assertion of `Serialize` holds exactly for coins that are not pruned |
| `CoinsSerial.AvailableIsMasked` | 2018/Jiaozi-new/src/coins.cpp:17-33 | Every available output from the third on has its bit inside the mask |
| `CoinsSerial.CalcMaskSize` | 2018/Jiaozi-new/src/coins.cpp:17-33 | Computes the length up to the last mask byte in use, and how many are not zero |
| `CoinsSerial.Serialize` | 2018/Jiaozi-new/src/coins.h:178-205 | Appends bytes that describe the coins as the format says, proving the assertion and that the header code is a 32-bit number |
| `CoinsSerial.GetSerializeSize` | 2018/Jiaozi-new/src/coins.h:155-176 | Equals the number of bytes that `Serialize` writes |
| `CoinsSerial.UnserializeCoins` | 2018/Jiaozi-new/src/coins.h:207-239 | Reads what the format says of any byte sequence, numbers that are too large wrapped to their types, and fails exactly when it ends too early; what it accepts describes the coins that it returns |
| `CoinsSerial.OutRoundTrip` | 2018/Jiaozi-new/src/compressor.h:108-120 | What is read from the bytes of any output, with everything that follows left over |
| `CoinsSerial.StoredIff` | 2018/Jiaozi-new/src/compressor.h:108-120 | An output comes back as it was exactly if its amount compresses without overflow and it has no rounds |
| `CoinsSerial.NotNull` | 2018/Jiaozi-new/src/compressor.cpp:161-185 | No amount comes back as that of a null output, so what was available stays so |
| `VarInt.ReadWritten` | 2018/Jiaozi-new/src/serialize.h:356-385 | Reading undoes writing for every natural number, whatever follows |
| `VarInt.ReadFitting` | 2018/Jiaozi-new/src/serialize.h:356-385 | What fits the type that it is read into comes back |
| `VarInt.WrittenAsRead` | 2018/Jiaozi-new/src/serialize.h:328-333 | Every sequence that can be read is the encoding of what was read: no number has a second encoding |
| `VarInt.ReadIsSum` | 2018/Jiaozi-new/src/serialize.h:318-333 | The sum in the description of the format: what a sequence whose bytes but the last have the highest bit set is read as, and what no other sequence is written for |
| `Vectors.VarInts` | 2018/Jiaozi-new/src/serialize.h:335-341 | The table in the description, but for two lines of it that are wrong |
| `VarInt.SignedReadIff` | 2018/Jiaozi-new/src/serialize.h:356-385 | A signed integer comes back exactly when it is not negative |
| `VarInt.SizeBound` | 2018/Jiaozi-new/src/serialize.h:359-359 | Encodings fit the local buffer: five bytes for 32 bits, ten for 64 |
| `VarInt.WriteVarInt` | 2018/Jiaozi-new/src/serialize.h:356-371 | The two loops write the encoding and stay in the buffer |
| `VarInt.ReadVarInt` | 2018/Jiaozi-new/src/serialize.h:373-385 | The loop reads what the format says, wrapped to the width of its type at every turn |
| `VarInt.GetSizeOfVarInt` | 2018/Jiaozi-new/src/serialize.h:343-354 | The number of bytes of the encoding |
| `AmountCodec.DecompressCompress` | 2018/Jiaozi-new/src/compressor.cpp:142-185 | Decompressing undoes compressing for every natural number |
| `AmountCodec.CompressDecompress` | 2018/Jiaozi-new/src/compressor.cpp:142-185 | Compressing undoes decompressing for every natural number, so the two are inverse bijections |
| `AmountCodec.CompressIs` | 2018/Jiaozi-new/src/compressor.cpp:133-159 | m * 10^e, with as few zeros left in m as nine allow, is stored as 1 + e + 10 * (9 * (m / 10) + m % 10 - 1), or 10 * m for e = 9 |
| `Vectors.Amounts` | 2018/Jiaozi-new/src/test/compress_tests.cpp:42-47 | The pairs of amounts and stored numbers in the test |
| `AmountCodec.Fits` | 2018/Jiaozi-new/src/compressor.cpp:142-159 | Up to (2^64 - 1) / 9 compressing does not overflow |
| `AmountCodec.StoredExactlyIff` | 2018/Jiaozi-new/src/compressor.cpp:142-159 | What is stored in 64 bits stands for the amount exactly when compressing does not overflow |
| `AmountCodec.RoundTrip64` | 2018/Jiaozi-new/src/compressor.cpp:142-185 | In 64-bit arithmetic the round trip is exact if and only if compressing does not overflow; no second overflow makes good the first |
| `AmountCodec.NotRestored` | 2018/Jiaozi-new/src/amount.h:30-30 | An amount below MAX_MONEY that comes back as another one |
| `AmountCodec.CompressAmount` | 2018/Jiaozi-new/src/compressor.cpp:142-159 | The loop computes the compressed amount in 64 bits; its assertion on the last digit holds |
| `AmountCodec.DecompressAmount` | 2018/Jiaozi-new/src/compressor.cpp:161-185 | The loop computes the amount in 64 bits |
| `ScriptCodec.LengthenShortened` | 2018/Jiaozi-new/src/compressor.cpp:48-131 | Each of the six short forms gives the script back, for a curve whose keys are determined by one coordinate and a parity |
| `ScriptCodec.ShortForms` | 2018/Jiaozi-new/src/compressor.cpp:48-77 | Byte by byte, which scripts have a short form and what it is |
| `ScriptCodec.StoredForms` | 2018/Jiaozi-new/src/compressor.h:66-76 | A script without one is stored behind its size plus six |
| `ScriptCodec.ScriptRoundTrip` | 2018/Jiaozi-new/src/compressor.h:66-91 | A script comes back as it was, whatever follows in the stream and whatever was there before, exactly if it has a short form or its size plus six fits 32 bits |
| `ScriptCodec.CScriptCompressor.Compress` | 2018/Jiaozi-new/src/compressor.cpp:48-77 | Produces the short form exactly for the scripts that have one |
| `ScriptCodec.CScriptCompressor.Decompress` | 2018/Jiaozi-new/src/compressor.cpp:88-131 | Replaces the script by what the short form stands for, or leaves it alone |
| `ScriptCodec.CScriptCompressor.Serialize` | 2018/Jiaozi-new/src/compressor.h:66-76 | Appends the encoding of the script |
| `ScriptCodec.CScriptCompressor.Unserialize` | 2018/Jiaozi-new/src/compressor.h:78-91 | Reads a script as the format says over whatever was there before |
| `ScriptCodec.CScriptCompressor.GetSerializeSize` | 2018/Jiaozi-new/src/compressor.h:58-64 | The number of bytes of the encoding |
| `AddrTables.InitialIsConsistent` | 2018/Jiaozi-new/src/addrman.h:457-460 | A constructed manager is consistent |
| `AddrOps.StepKeeps` | 2018/Jiaozi-new/src/addrman.cpp:196-330 | Every operation keeps the invariant: maps, vector, both tables, reference counts and counters agree |
| `AddrOps.Run` | 2018/Jiaozi-new/src/addrman.cpp:196-514 | Every run of operations from a consistent manager ends in a consistent one |
| `AddrTables.CreateKeeps` | 2018/Jiaozi-new/src/addrman.cpp:87-97 | A created entry is indexed and placed, and in no table yet |
| `AddrTables.SwapKeeps` | 2018/Jiaozi-new/src/addrman.cpp:99-117 | Swapping two places keeps positions and vector inverse to each other |
| `AddrTables.SwapIsAPermutation` | 2018/Jiaozi-new/src/addrman.cpp:106-116 | Swapping rearranges `vRandom` and changes no entry but in its position |
| `AddrTables.DeleteKeeps` | 2018/Jiaozi-new/src/addrman.cpp:119-131 | Deleting an entry in no table keeps everything else; the assertions hold for every such entry |
| `AddrTables.ClearNewKeeps` | 2018/Jiaozi-new/src/addrman.cpp:133-146 | Clearing a slot keeps the invariant and every entry but the one that stood there; the reference count was positive |
| `AddrTables.EvictKeeps` | 2018/Jiaozi-new/src/addrman.cpp:167-188 | An evicted entry goes back to its home slot of "new" with one reference, and the invariant is kept |
| `AddrTables.MakeTriedKeeps` | 2018/Jiaozi-new/src/addrman.cpp:148-194 | Making an entry tried keeps the invariant, and all its assertions hold |
| `AddrOps.MakeTriedMoves` | 2018/Jiaozi-new/src/addrman.cpp:148-194 | The entry is then in its slot of "tried"; the one that stood there is in its home slot of "new"; the only entry that can be lost is the one an eviction overwrites |
| `AddrOps.ClearNewLoses` | 2018/Jiaozi-new/src/addrman.cpp:133-146 | An entry is lost exactly when the cleared slot was its last |
| `AddrOps.SomeBucketIsFound` | 2018/Jiaozi-new/src/addrman.cpp:222-237 | An untried entry is in some bucket, so the bail-out for "no bucket is found" is never taken |
| `AddrOps.GoodKeeps` | 2018/Jiaozi-new/src/addrman.cpp:196-243 | A known service is in "tried" afterwards with the time of its success, an unknown one changes nothing, and nothing is lost but what an eviction overwrites |
| `AddrOps.AddKeeps` | 2018/Jiaozi-new/src/addrman.cpp:245-311 | Reports a new address exactly for a routable one that was not known; that one is known afterwards exactly when its slot could be taken |
| `AddrOps.AddNewMeans` | 2018/Jiaozi-new/src/addrman.cpp:281-309 | A new routable address is known afterwards exactly if its slot was free or held an entry that is hopeless, its times and attempts spelled out, or that has another slot; what its entry says, which slot it has, and that nothing but the entry overwritten can be lost |
| `AddrOps.AddKnownMeans` | 2018/Jiaozi-new/src/addrman.cpp:253-280 | A known address: the time and the services of its entry afterwards, and exactly when it gets one more slot and which |
| `AddrOps.HopelessIff` | 2018/Jiaozi-new/src/addrman.cpp:32-50 | When an entry is terrible: not tried in the last minute, and of no time, ten minutes ahead, thirty days old, or without an answer in three attempts, or in a week and ten attempts |
| `AddrOps.NewButDropped` | 2018/Jiaozi-new/src/addrman.cpp:257-311 | In a new manager whose hash puts all addresses in one slot, the second address is reported as new and is not known afterwards |
| `AddrOps.PlaceKeeps` | 2018/Jiaozi-new/src/addrman.cpp:289-309 | The last part of `Add_`: the entry takes its slot exactly when the rule allows, or is deleted if it has no other |
| `AddrOps.PlaceLoses` | 2018/Jiaozi-new/src/addrman.cpp:289-309 | Which entries the last part of `Add_` loses |
| `AddrOps.GetAddrPicks` | 2018/Jiaozi-new/src/addrman.cpp:457-476 | Shuffles and changes nothing else; returns no address twice, none that is terrible, at most 23 of a hundred and 2500 in all, and all good ones if it returns less |
| `AddrOps.UpdatesMean` | 2018/Jiaozi-new/src/addrman.cpp:313-330 | `Attempt_`, `Connected_` and `SetServices_` change the entry of exactly that service, port and all, if there is one, and nothing else; what becomes of it |
| `AddrOps.GoodMeans` | 2018/Jiaozi-new/src/addrman.cpp:196-243 | After `Good_` the entry of that service is in "tried" with the time and no attempts; at most one other entry is lost, and what is remembered of the rest stays |
| `AddrTables.SlotsAre` | 2018/Jiaozi-new/src/addrman.cpp:11-30 | The hashes that bucket and position come from: in "new" of the groups of address and source, in "tried" of address and group, the position of the bucket and the address with its port, all with the secret key |
| `AddrTables.BucketsOfSource` | 2018/Jiaozi-new/src/addrman.h:114-121 | All addresses told by peers of one group go to 64 buckets of "new" at most |
| `AddrTables.BucketOfGroups` | 2018/Jiaozi-new/src/addrman.h:114-121 | Those of one group told by one group go to one bucket |
| `AddrTables.BucketsOfGroup` | 2018/Jiaozi-new/src/addrman.h:122-124 | The addresses of one group go to eight buckets of "tried" at most |
| `AddrOps.UpdatesKeep` | 2018/Jiaozi-new/src/addrman.cpp:313-330 | `Attempt_`, `Connected_` and `SetServices_` keep the invariant |
| `AddrOps.SizeIsTheSum` | 2018/Jiaozi-new/src/addrman.h:467-471 | size() is nNew + nTried and the number of entries |
| `AddrOps.StepKeepsDates` | 2018/Jiaozi-new/src/addrman.cpp:212-214 | Operations told a time after 1970 keep the times that the consistency check looks at in order |
| `AddrMan.CAddrMan.constructor` | 2018/Jiaozi-new/src/addrman.h:457-460 | Builds the empty tables |
| `AddrMan.CAddrMan.Create` | 2018/Jiaozi-new/src/addrman.cpp:87-97 | Does to the fields what the operation says |
| `AddrMan.CAddrMan.SwapRandom` | 2018/Jiaozi-new/src/addrman.cpp:99-117 | Does to the fields what the operation says, with both assertions |
| `AddrMan.CAddrMan.Delete` | 2018/Jiaozi-new/src/addrman.cpp:119-131 | Does to the fields what the operation says, with its assertions |
| `AddrMan.CAddrMan.ClearNew` | 2018/Jiaozi-new/src/addrman.cpp:133-146 | Does to the fields what the operation says, with its assertion |
| `AddrMan.CAddrMan.LeaveAllNew` | 2018/Jiaozi-new/src/addrman.cpp:150-160 | The loop over all buckets ends with no reference left |
| `AddrMan.CAddrMan.Evict` | 2018/Jiaozi-new/src/addrman.cpp:167-188 | Does to the fields what the operation says, with its assertions |
| `AddrMan.CAddrMan.MakeTried` | 2018/Jiaozi-new/src/addrman.cpp:148-194 | Does to the fields what the operation says and keeps the invariant, with every assertion |
| `AddrMan.CAddrMan.Good_` | 2018/Jiaozi-new/src/addrman.cpp:196-243 | Does to the fields what the operation says, whatever bucket the search begins with |
| `AddrMan.CAddrMan.Add_` | 2018/Jiaozi-new/src/addrman.cpp:245-311 | Does to the fields what the operation says, whatever the random number |
| `AddrMan.CAddrMan.Attempt_` | 2018/Jiaozi-new/src/addrman.cpp:313-330 | Does to the fields what the operation says |
| `AddrMan.CAddrMan.Connected_` | 2018/Jiaozi-new/src/addrman.cpp:478-496 | Does to the fields what the operation says |
| `AddrMan.CAddrMan.SetServices_` | 2018/Jiaozi-new/src/addrman.cpp:498-514 | Does to the fields what the operation says |
| `AddrMan.CAddrMan.GetAddr_` | 2018/Jiaozi-new/src/addrman.cpp:457-476 | Does to the fields what the operation says, whatever the random numbers, with its assertion |
| `AddrCheck.Check_` | 2018/Jiaozi-new/src/addrman.cpp:380-454 | The authors' own check returns zero exactly for states that meet its conditions, and changes nothing in a consistent one |
| `AddrCheck.ConsistentPassesIff` | 2018/Jiaozi-new/src/addrman.cpp:380-454 | In a consistent state the check passes exactly if the times are in order and the key is not null |
| `AddrCheck.PassesIff` | 2018/Jiaozi-new/src/addrman.cpp:380-454 | The check misses nothing else: where the index has exactly the addresses of the entries, it passes if and only if the state is consistent, the times are in order and the key is not null |
| `AddrCheck.RunPasses` | 2018/Jiaozi-new/src/addrman.cpp:380-454 | No run of operations that are told the time makes the check fail |
| `AddrCheck.NewManagerPasses` | 2018/Jiaozi-new/src/addrman.h:457-460 | From the constructor with a key that is not null, the check passes after every such run |
| `AddrRoundTrip.RoundTrip` | 2018/Jiaozi-new/src/addrman.h:284-430 | Reading the file of a consistent manager into a fresh one gives the same entries, slots, references and counters under new ids, nothing lost, and a consistent manager |
| `AddrRoundTrip.RenamedIsConsistent` | 2018/Jiaozi-new/src/addrman.h:272-276 | Renaming the ids of a consistent manager leaves it consistent |
| `AddrRoundTrip.FileOrderIsComplete` | 2018/Jiaozi-new/src/addrman.h:298-317 | The two loops write every entry once, nNew and nTried of them |
| `AddrRoundTrip.ClearLeavesEntries` | 2018/Jiaozi-new/src/addrman.h:437-455 | What Clear() leaves is consistent exactly when the manager had no entries |
| `AddrLoad.LoadsIff` | 2018/Jiaozi-new/src/addrman.h:334-430 | An empty manager loads a file, of whatever version and bucket count, exactly if the key size is 32 and all the entries and indices announced are there: no assertion of `Delete` fails |
| `AddrLoad.LoadedConsistentIff` | 2018/Jiaozi-new/src/addrman.h:334-430 | Its state is then consistent if and only if no count in the header is negative and no entry that has been given a slot shares its address with another entry that is in `mapInfo` before pruning |
| `AddrLoad.DistinctIsConsistentIff` | 2018/Jiaozi-new/src/addrman.h:334-430 | If no address is repeated in the file, whatever its version, bucket count and indices, only a negative count makes the state inconsistent |
| `AddrLoad.Overwritten` | 2018/Jiaozi-new/src/addrman.h:357-388 | A file with an address in "new" and in "tried": `mapAddr` leads to the tried entry only |
| `AddrLoad.Erased` | 2018/Jiaozi-new/src/addrman.h:414-424 | A file with an address twice in "new": pruning the second entry erases the address from `mapAddr`, and the first is not found any more |
| `AddrLoad.LoadedSays` | 2018/Jiaozi-new/src/addrman.h:356-412 | Before pruning the entries say what the file says, every "tried" slot that one of them belongs in is taken by one of them, and in a file whose buckets can be used the slots of "new" hold what their buckets list, and what is listed is missing only for another entry or for having eight references |
| `AddrLoad.KeptAtHome` | 2018/Jiaozi-new/src/addrman.h:363-374 | Of a file of another version or bucket count a "new" entry is kept exactly if no earlier one belongs in the same slot by its source, and stands in that slot alone |
| `AddrFile.Xor30Is` | 2018/Jiaozi-new/src/addrman.h:268-271 | The bucket count has bit 30 turned over, in the file and back |
| `AddrLoad.TablesSound` | 2018/Jiaozi-new/src/addrman.h:356-412 | Before pruning all is right in any file but the index and the counters: ids, positions, both tables, reference counts, and nTried less the entries lost |
| `AddrLoad.PruneGoes` | 2018/Jiaozi-new/src/addrman.h:414-424 | Pruning deletes exactly the entries in no table, each assertion of `Delete` holds, and the addresses of these entries are not known any more |
| `AddrMan.CAddrMan.Serialize` | 2018/Jiaozi-new/src/addrman.h:284-332 | Writes the file of the state, with both assertions on the counters |
| `AddrMan.CAddrMan.Unserialize` | 2018/Jiaozi-new/src/addrman.h:334-430 | Makes of any file what the format says, and fails exactly where it throws or an assertion of `Delete` fails; in an empty manager exactly for files that cannot be read, and it says exactly when the state is consistent |
| `AddrMan.CAddrMan.Clear` | 2018/Jiaozi-new/src/addrman.h:437-455 | Empties the tables and the vector; the two maps stay |
| `ArithUint256.BaseUint.AddAssign` | 2018/Jiaozi-new/src/arith_uint256.h:135-145 | Addition modulo 2^256 |
| `ArithUint256.BaseUint.SubAssign` | 2018/Jiaozi-new/src/arith_uint256.h:147-151 | Subtraction modulo 2^256 |
| `ArithUint256.BaseUint.Negated` | 2018/Jiaozi-new/src/arith_uint256.h:77-84 | Complement and increment give the negative modulo 2^256 |
| `ArithUint256.BaseUint.Increment` | 2018/Jiaozi-new/src/arith_uint256.h:173-180 | Adds one modulo 2^256 |
| `ArithUint256.BaseUint.Decrement` | 2018/Jiaozi-new/src/arith_uint256.h:190-197 | Subtracts one modulo 2^256 |
| `ArithUint256.BaseUint.MulAssignLimb` | 2018/Jiaozi-new/src/arith_uint256.cpp:55-65 | Multiplication by a limb modulo 2^256 |
| `ArithUint256.BaseUint.MulAssign` | 2018/Jiaozi-new/src/arith_uint256.cpp:67-81 | Multiplication modulo 2^256 for a different object; zero for the object itself |
| `ArithUint256.BaseUint.DivAssign` | 2018/Jiaozi-new/src/arith_uint256.cpp:83-107 | Exactly the quotient, with the remainder left over; throws exactly for zero, after zeroing the receiver |
| `ArithUint256.BaseUint.TakeAway` | 2018/Jiaozi-new/src/arith_uint256.cpp:98-101 | One turn of the division: exactly where the shifted divisor goes in, it is subtracted and its bit of the quotient set |
| `ArithUint256.Aligned` | 2018/Jiaozi-new/src/arith_uint256.cpp:95-96 | Shifting the divisor up to the dividend loses none of its bits |
| `ArithUint256.BaseUint.ShiftLeft` | 2018/Jiaozi-new/src/arith_uint256.cpp:21-36 | Multiplication by a power of two modulo 2^256 |
| `ArithUint256.BaseUint.ShiftRight` | 2018/Jiaozi-new/src/arith_uint256.cpp:38-53 | Division by a power of two |
| `ArithUint256.BaseUint.CompareTo` | 2018/Jiaozi-new/src/arith_uint256.cpp:109-119 | The order of the numbers |
| `ArithUint256.BaseUint.EqualTo` | 2018/Jiaozi-new/src/arith_uint256.cpp:121-133 | Equality with a 64-bit number |
| `ArithUint256.BaseUint.NumberOfBits` | 2018/Jiaozi-new/src/arith_uint256.cpp:171-184 | The position of the highest bit plus one, or zero |
| `ArithUint256.BaseUint.GetLow64` | 2018/Jiaozi-new/src/arith_uint256.h:245-249 | The number modulo 2^64 |
| `Limbs.ValLess` | 2018/Jiaozi-new/src/arith_uint256.cpp:112-117 | The highest limb that differs decides |
| `Limbs.ValInjective` | 2018/Jiaozi-new/src/arith_uint256.h:220-220 | Equal numbers have equal limbs |
| `Limbs.ValNumBits` | 2018/Jiaozi-new/src/arith_uint256.cpp:171-184 | The top limb's highest bit is the number's |
| `Compact.RoundsDown` | 2018/Jiaozi-new/src/arith_uint256.cpp:204-245 | SetCompact(GetCompact(x)) is at most x and less than one unit of the stored exponent below it |
| `Compact.KeepsLeadingBytes` | 2018/Jiaozi-new/src/arith_uint256.cpp:204-245 | Rounding keeps the number of bits and the leading bytes |
| `Compact.Settles` | 2018/Jiaozi-new/src/arith_uint256.cpp:204-245 | GetCompact(SetCompact(GetCompact(x))) is GetCompact(x) |
| `Compact.KeepsOrder` | 2018/Jiaozi-new/src/arith_uint256.cpp:224-245 | Compact values are ordered as their numbers |
| `Compact.RestoredIff` | 2018/Jiaozi-new/src/arith_uint256.cpp:204-245 | Expanding and compressing gives a compact value back exactly when it is in the form GetCompact gives |
| `Compact.OverflowTest` | 2018/Jiaozi-new/src/arith_uint256.cpp:217-220 | The three comparisons hold exactly when mantissa * 256^(size - 3) reaches 2^256 |
| `Compact.MagnitudeIs` | 2018/Jiaozi-new/src/arith_uint256.cpp:204-216 | A compact value stands for its 23 lowest bits times, or divided by, a power of 256; bit 23 is the sign |
| `Vectors.CompactZeros` | 2018/Jiaozi-new/src/test/arith_uint256_tests.cpp:417-481 | Ten compact values of the test that stand for zero |
| `Vectors.CompactValues` | 2018/Jiaozi-new/src/test/arith_uint256_tests.cpp:483-531 | Seven others |
| `Vectors.Compressed` | 2018/Jiaozi-new/src/test/arith_uint256_tests.cpp:483-525 | What eight numbers of the test are compressed to |
| `Compact.MakesRoom` | 2018/Jiaozi-new/src/arith_uint256.cpp:234-241 | Moving one byte makes room for the sign; both assertions hold |
| `ArithUint256.BaseUint.SetCompact` | 2018/Jiaozi-new/src/arith_uint256.cpp:204-222 | The magnitude modulo 2^256, with both flags exact |
| `ArithUint256.BaseUint.GetCompact` | 2018/Jiaozi-new/src/arith_uint256.cpp:224-245 | The compact value of the number |
| `Chain.CBlockIndex.GetAncestor` | 2018/Jiaozi-new/src/chain.cpp:78-102 | Exactly the block reached by following `pprev`, or null outside the range; it ends and its assertion holds; where every block has its skip pointer it takes exactly the turns that the two heights determine, at most k^2 + 1 for heights up to 2^k |
| `Chain.CBlockIndex.BuildSkip` | 2018/Jiaozi-new/src/chain.cpp:109-113 | The skip pointer of a new block leads to its ancestor at the skip height; where all others have theirs, all have theirs afterwards |
| `SkipList.SkipGoesBack` | 2018/Jiaozi-new/src/chain.cpp:67-76 | The skip height is below the height, for heights of one and more |
| `SkipList.WalkIsShort` | 2018/Jiaozi-new/src/chain.cpp:78-102 | From any height up to 2^k down to any other: at most k^2 + 1 turns, steps to the predecessor included |
| `SkipList.WalkIsLong` | 2018/Jiaozi-new/src/chain.cpp:43-43 | From height 2^k to height 2 it takes (k^2 - 1) / 4 turns at least, so it is not logarithmic |
| `SkipList.Descend` | 2018/Jiaozi-new/src/chain.cpp:67-99 | Out of the upper half of a block of 2^(i+1) heights in at most two turns for each one bit of the place in it |
| `SkipList.InvertLowestOneClears` | 2018/Jiaozi-new/src/chain.cpp:64-65 | Clears the lowest one bit and no other |
| `SkipList.InvertTakesOne` | 2018/Jiaozi-new/src/chain.cpp:64-65 | Takes exactly one of the one bits |
| `Chain.CBlockIndex.AncestorOfAncestor` | 2018/Jiaozi-new/src/chain.h:279-280 | Walking down twice is walking down once |
| `Chain.ChainIsAncestry` | 2018/Jiaozi-new/src/chain.h:383-386 | A chain that contains a block contains every ancestor at its height |
| `Chain.CChain.SetTip` | 2018/Jiaozi-new/src/chain.cpp:13-23 | The chain becomes the line of the tip, although the walk stops where the old chain is met |
| `Chain.CChain.FindFork` | 2018/Jiaozi-new/src/chain.cpp:53-62 | The highest block both in the chain and on the line of the argument, or null where there is none |
| `Chain.CChain.GetLocator` | 2018/Jiaozi-new/src/chain.cpp:25-51 | The hashes of the ancestors of the start at the locator heights |
| `Chain.LocatorGoesDown` | 2018/Jiaozi-new/src/chain.cpp:32-48 | Locator heights go strictly down to zero |
| `Chain.LocatorIs` | 2018/Jiaozi-new/src/chain.cpp:25-51 | The k-th entry is k blocks below the start up to the tenth, then 9 + 2^(k - 10), and never below zero |
| `Chain.LocatorIsShort` | 2018/Jiaozi-new/src/chain.cpp:46-47 | A locator has twelve entries, or one more for each doubling of the height |
| `Chain.CChain.Next` | 2018/Jiaozi-new/src/chain.h:388-394 | The successor in the chain, and null exactly for blocks not in it and the tip |
| `Base58.DecodeEncode` | 2018/Jiaozi-new/src/base58.cpp:21-109 | Decoding undoes encoding for every byte sequence |
| `Base58.EncodeDecode` | 2018/Jiaozi-new/src/base58.cpp:21-109 | Whatever can be decoded encodes to the input without the spaces around it |
| `Base58.DecodeIff` | 2018/Jiaozi-new/src/base58.cpp:21-69 | A string is decoded to some bytes if and only if it is their encoding with nothing but the six blank characters around it |
| `Base58.Alphabet` | 2018/Jiaozi-new/src/base58.cpp:19-19 | The letters are the digits and letters of ASCII but 0, I, O and l, and their values go up in that order |
| `Vectors.Strings` | 2018/Jiaozi-new/src/test/data/base58_encode_decode.json:2-3 | The first two pairs of the test |
| `Vectors.ThreeByteStrings` | 2018/Jiaozi-new/src/test/data/base58_encode_decode.json:4-5 | The next two |
| `Vectors.LongerStrings` | 2018/Jiaozi-new/src/test/data/base58_encode_decode.json:12-13 | The last two |
| `Base58.EncodeBase58` | 2018/Jiaozi-new/src/base58.cpp:71-109 | The loops compute the encoding, and the assertion on the carry holds |
| `Base58.DecodeBase58` | 2018/Jiaozi-new/src/base58.cpp:21-69 | Succeeds exactly for words of the alphabet between spaces; the assertion on the carry holds; otherwise the vector is left alone |
| `Base58.RoomToEncode` | 2018/Jiaozi-new/src/base58.cpp:80-82 | 138/100 digits and one for every byte are enough |
| `Base58.RoomToDecode` | 2018/Jiaozi-new/src/base58.cpp:33-35 | 733/1000 bytes and one for every letter are enough |
| `Radix.Pow58And256` | 2018/Jiaozi-new/src/base58.cpp:81-81 | 256^100 <= 58^138 and 58^1000 <= 256^733 |
| `Radix.Fits` | 2018/Jiaozi-new/src/base58.cpp:34-34 | If p digits of one base fit in q of another, m fit in q * m / p + 1 |
| `Radix.MultiplyAdd` | 2018/Jiaozi-new/src/base58.cpp:86-95 | One digit taken into a buffer in place: the number becomes factor * number + digit and no carry is left |
| `Radix.NumOfDigits` | 2018/Jiaozi-new/src/base58.cpp:98-101 | The digits of a number stand for it |
| `Radix.DigitsOfNum` | 2018/Jiaozi-new/src/base58.cpp:98-101 | Digits without a leading zero are the digits of their number |
| `Base58.DecodeEncodeCheck` | 2018/Jiaozi-new/src/base58.cpp:121-145 | A payload with its checksum comes back, for any hash |
| `Base58.EncodeDecodeCheck` | 2018/Jiaozi-new/src/base58.cpp:121-145 | Whatever passes the checksum encodes to the input without the spaces around it |
| `Base58.EncodeBase58Check` | 2018/Jiaozi-new/src/base58.cpp:121-128 | What it returns is decoded to the payload and the first four bytes of its hash |
| `Base58.CarriesIff` | 2018/Jiaozi-new/src/base58.cpp:128-146 | A string is accepted for a payload if and only if it is decoded to it and the first four bytes of its hash |
| `Base58.DecodeBase58Check` | 2018/Jiaozi-new/src/base58.cpp:130-145 | Succeeds exactly with the right checksum; otherwise the vector is cleared |
| `CacheMultiMap.CacheMultiMap.Insert` | 2018/Jiaozi-new/src/cachemultimap.h:93-115 | The contents after inserting; list and index stay in one-to-one correspondence with no inner map empty |
| `CacheMultiMap.InsertedFits` | 2018/Jiaozi-new/src/cachemultimap.h:93-115 | With a maximum of one or more that is not exceeded, inserting keeps to it and repeats no pair |
| `CacheMultiMap.RunFits` | 2018/Jiaozi-new/src/cachemultimap.h:93-246 | No run of insertions, erasures of keys and of pairs, and evictions from the empty map exceeds a fixed maximum of one or more, or repeats a pair |
| `CacheMultiMap.RunAll` | 2018/Jiaozi-new/src/cachemultimap.h:93-246 | The object that goes through any such run ends up with these contents, within its maximum |
| `CacheMultiMap.EvictsTheOldest` | 2018/Jiaozi-new/src/cachemultimap.h:95-107 | Exactly when the oldest pair goes; inserting a pair that is there already into a full map makes it smaller |
| `CacheMultiMap.ZeroIsNoLimit` | 2018/Jiaozi-new/src/cachemultimap.h:95-97 | A maximum of zero does not limit the map |
| `CacheMultiMap.KeepsTheLatest` | 2018/Jiaozi-new/src/cachemultimap.h:93-115 | After any insertions of different pairs the contents are the most recent ones, newest first |
| `CacheMultiMap.CacheMultiMap.GetAll` | 2018/Jiaozi-new/src/cachemultimap.h:135-148 | All values of a key, each once and in ascending order, and found exactly when there is one |
| `CacheMultiMap.CacheMultiMap.Get` | 2018/Jiaozi-new/src/cachemultimap.h:123-133 | The least value of a key, found exactly when there is one |
| `CacheMultiMap.CacheMultiMap.Has` | 2018/Jiaozi-new/src/cachemultimap.h:117-121 | Exactly the keys of which a pair is stored |
| `CacheMultiMap.CacheMultiMap.SetMaxSize` | 2018/Jiaozi-new/src/cachemultimap.h:80-83 | Changes the maximum and nothing else |
| `CacheMultiMap.CacheMultiMap.Erase` | 2018/Jiaozi-new/src/cachemultimap.h:157-171 | Exactly the pairs of the key go, in list and index |
| `CacheMultiMap.WithoutKeyIs` | 2018/Jiaozi-new/src/cachemultimap.h:157-171 | What is left is every pair of another key |
| `CacheMultiMap.CacheMultiMap.ErasePair` | 2018/Jiaozi-new/src/cachemultimap.h:173-193 | Exactly the pair goes, and its key if that was the last |
| `CacheMultiMap.WithoutPairIs` | 2018/Jiaozi-new/src/cachemultimap.h:173-193 | What is left is every other pair |
| `CacheMultiMap.CacheMultiMap.PruneLast` | 2018/Jiaozi-new/src/cachemultimap.h:222-246 | Exactly the oldest pair goes, in list and index |
| `CacheMultiMap.CacheMultiMap.RebuildIndex` | 2018/Jiaozi-new/src/cachemultimap.h:248-260 | For any list, also one read from a stream: each pair leads to the last node that has it; the map is right exactly if no pair is repeated and the size field is the length; a right index is built again as it was |
| `CacheMultiMap.LinkedIff` | 2018/Jiaozi-new/src/cachemultimap.h:211-219 | The rebuilt index of a list that was read matches it exactly if no pair is repeated |
| `CacheMultiMap.IndexIsDetermined` | 2018/Jiaozi-new/src/cachemultimap.h:248-260 | A list has one index that matches it |
| `CacheMultiMap.PairsOnce` | 2018/Jiaozi-new/src/cachemultimap.h:104-107 | No pair occurs twice in the list |
| `CacheMultiMap.CopyIsLinkedIff` | 2018/Jiaozi-new/src/cachemultimap.h:64-71 | The copying members take another class, so a copy is made member by member; its index is right only if it is empty |
| `CacheMap.CacheMap.Insert` | 2018/Jiaozi-new/src/cachemap.h:112-126 | A key that is there is overwritten where it stands, a new one goes in front, and the oldest goes when full |
| `CacheMap.StoredIs` | 2018/Jiaozi-new/src/cachemap.h:112-126 | The key then has the value, keys stay distinct, the maximum is kept, and no other key is lost but the oldest of a full map |
| `CacheMap.RunKeeps` | 2018/Jiaozi-new/src/cachemap.h:112-192 | No run of insertions, erasures and evictions from the empty map repeats a key or exceeds a fixed maximum of one or more |
| `CacheMap.RunThrough` | 2018/Jiaozi-new/src/cachemap.h:112-192 | The object that goes through any such run ends up with these contents |
| `CacheMap.CacheMap.HasAny` | 2018/Jiaozi-new/src/cachemap.h:128-132 | Exactly the keys stored |
| `CacheMap.CacheMap.Get` | 2018/Jiaozi-new/src/cachemap.h:134-143 | Finds the value exactly where the key is stored |
| `CacheMap.CacheMap.Erase` | 2018/Jiaozi-new/src/cachemap.h:145-154 | Exactly the key goes, in list and index |
| `CacheMap.ErasedIs` | 2018/Jiaozi-new/src/cachemap.h:145-154 | With each key once, taking out one place is taking out the key |
| `CacheMap.CacheMap.PruneLast` | 2018/Jiaozi-new/src/cachemap.h:183-192 | Exactly the oldest goes, in list and index |
| `CacheMap.CacheMap.RebuildIndex` | 2018/Jiaozi-new/src/cachemap.h:194-200 | For any list, also one read from a stream: each key leads to the last node that has it; the map is right exactly if no key is repeated and the size field is the length; a right index is built again as it was |
| `CacheMap.MatchesIff` | 2018/Jiaozi-new/src/cachemap.h:171-180 | The rebuilt index of a list that was read matches it exactly if no key is repeated |
| `Bloom.CBloomFilter.Insert` | 2018/Jiaozi-new/src/bloom.cpp:61-72 | Sets the bits of the key and no others, and nothing in a full filter |
| `Bloom.CBloomFilter.Includes` | 2018/Jiaozi-new/src/bloom.cpp:88-102 | Yes exactly if full, or not empty with every bit of the key set |
| `Bloom.InsertedIsContained` | 2018/Jiaozi-new/src/bloom.cpp:61-102 | What is inserted is contained, and what was contained before still is |
| `Bloom.InsertedMeans` | 2018/Jiaozi-new/src/bloom.cpp:50-72 | By arithmetic alone: bit k of byte j is set afterwards exactly if it was or some seed i * 0xFBA4C795 + nTweak hashes the key to 8 * j + k |
| `Bloom.ContainsMeans` | 2018/Jiaozi-new/src/bloom.cpp:88-102 | And a key is contained exactly if all these bits are set, in a filter that is neither empty nor full |
| `Bloom.ContainsIffCovered` | 2018/Jiaozi-new/src/bloom.cpp:88-102 | After any insertions into a cleared filter the answer is yes exactly if the inserted keys cover every bit of the key |
| `Bloom.InsertHoldsOneMore` | 2018/Jiaozi-new/src/bloom.cpp:61-72 | A filter that holds exactly some keys then holds exactly one more |
| `Bloom.ClearedHoldsNothing` | 2018/Jiaozi-new/src/bloom.cpp:118-123 | A cleared filter holds nothing |
| `Bloom.CBloomFilter.Clear` | 2018/Jiaozi-new/src/bloom.cpp:118-123 | All bits zero and both flags reset |
| `Bloom.CBloomFilter.FromStream` | 2018/Jiaozi-new/src/bloom.h:71-81 | A received filter has the bits of the stream and the flags of the default constructor: full and not empty |
| `Bloom.CBloomFilter.UpdateEmptyFull` | 2018/Jiaozi-new/src/bloom.cpp:206-217 | Sets the flags to what the bits say |
| `Bloom.UpdatedAnswersByBits` | 2018/Jiaozi-new/src/bloom.cpp:206-217 | After `UpdateEmptyFull` any filter answers as its bits say, whatever its flags were, but for one without hash functions and without a bit |
| `Bloom.UpdateChangesNothingIff` | 2018/Jiaozi-new/src/bloom.cpp:206-217 | For every filter that can be asked, with whatever flags: no hash function and no key tell a difference if and only if its flags, its bits and whether it has hash functions meet a condition that is spelled out |
| `Bloom.ReceivedChangesIff` | 2018/Jiaozi-new/src/bloom.cpp:206-217 | A received filter says yes to everything before it is updated; afterwards some answer is no exactly if not all bits are set and it has a hash function or no bit at all |
| `Bloom.ReceivedChanges` | 2018/Jiaozi-new/src/bloom.cpp:206-217 | A received filter with a hash function every answer of which changes |
| `Bloom.OwnUnchangedIff` | 2018/Jiaozi-new/src/bloom.cpp:206-217 | Of the filters whose flags agree with their bits only those without hash functions, inserted into and without a bit set, change their answers |
| `Bloom.HeldUnchangedIff` | 2018/Jiaozi-new/src/bloom.cpp:206-217 | Of the filters made here that hold exactly some keys, those keep all their answers that have a hash function or hold no key |
| `Bloom.CRollingBloomFilter.Insert` | 2018/Jiaozi-new/src/bloom.cpp:232-244 | Both filters go on holding exactly the last keys they should, whichever is cleared |
| `Bloom.CRollingBloomFilter.Includes` | 2018/Jiaozi-new/src/bloom.cpp:252-258 | Yes for each of the last N keys; and the answer depends on fewer than 2N keys |
| `Bloom.EnoughIsRemembered` | 2018/Jiaozi-new/src/bloom.cpp:222-227 | The filter that answers holds at least the last N keys and fewer than 2N |
| `Bloom.Staggered` | 2018/Jiaozi-new/src/bloom.cpp:234-243 | Each insertion adds one key to both counts, after emptying the filter whose turn it is |
| `Bloom.CRollingBloomFilter.Reset` | 2018/Jiaozi-new/src/bloom.cpp:266-272 | Both filters hold nothing, under the new tweak |
| `Mnemonic.AcceptedIff` | 2018/Jiaozi-new/src/bip39.cpp:46-149 | `Check` accepts exactly the phrases that `FromData` makes of 16, 24 or 32 bytes |
| `Mnemonic.MadeIsAcceptedIff` | 2018/Jiaozi-new/src/bip39.cpp:46-149 | A phrase made of entropy passes exactly for 16, 24 and 32 bytes; those of 20 and 28 are made and rejected |
| `Mnemonic.AcceptedIsMade` | 2018/Jiaozi-new/src/bip39.cpp:80-149 | What passes is the phrase of the entropy that its words hold |
| `Mnemonic.PhraseHoldsEntropy` | 2018/Jiaozi-new/src/bip39.cpp:55-75 | Unpacking the words gives exactly the bits of the entropy and the first bits of its hash |
| `Mnemonic.WordIs` | 2018/Jiaozi-new/src/bip39.cpp:46-78 | By arithmetic alone: the i-th word is the one whose number the i-th eleven bits are of entropy and first hash byte read as one big-endian number |
| `Mnemonic.PhraseDetermines` | 2018/Jiaozi-new/src/bip39.cpp:46-78 | Different entropy gives different phrases |
| `Mnemonic.WordsGiveBits` | 2018/Jiaozi-new/src/bip39.cpp:115-130 | The indices of the words are the groups of eleven bits they were picked by |
| `Mnemonic.BitsGiveWords` | 2018/Jiaozi-new/src/bip39.cpp:65-71 | The bits of known words pick these words |
| `Mnemonic.SplitOfJoin` | 2018/Jiaozi-new/src/bip39.cpp:104-113 | Splitting at spaces undoes joining with them |
| `Mnemonic.JoinOfSplit` | 2018/Jiaozi-new/src/bip39.cpp:104-113 | Joining undoes splitting |
| `Mnemonic.FromData` | 2018/Jiaozi-new/src/bip39.cpp:46-78 | The loops compute the phrase, and nothing for a length that is not allowed |
| `Mnemonic.Check` | 2018/Jiaozi-new/src/bip39.cpp:80-149 | The loops decide acceptance; every write stays inside the 33 bytes |
| `Mnemonic.Generate` | 2018/Jiaozi-new/src/bip39.cpp:34-43 | Makes phrases of five strengths, of which those of 160 and 224 bits are not accepted |

## Left out

- Thread interruption, exceptions thrown by checks, `fQuit` and a controller for a null queue: no member of `CCheckQueue` sets `fQuit`, and the rest stops the node.
- Memory order and the mutex itself: critical sections are atomic steps, and a sleeping thread is a state.
- `CCoins` is a value in the model: `Coins.Spend` and `Coins.Cleanup` return the new coins instead of changing an object in place, so aliasing between coins is not captured; `swap` moves are copies.
- The bottom coin store is an abstract map with a best block; LevelDB, `GetStats`, `GetPriority`, `GetValueIn` and `HaveInputs` are not part of this model.
- `DynamicMemoryUsage` of coins is any function that is zero for empty coins.
- CoinsCache.CCoinsViewCache.Flush: requires that no modifier is live in this layer, because flushing under one leaves a dangling reference; a base that reports failure is not modelled.
- CoinsSerial.Serialize: requires fewer than 2^32 - 16 outputs, because the header code is a 32-bit number; the other conditions are the ranges of the C++ types.
- VarInt.ReadVarInt: signed types are taken to wrap around too, where the C++ standard leaves the overflow of a malformed stream undefined.
- ScriptCodec.CScriptCompressor.Unserialize: says nothing of the script after a stream that ends early.
- CoinsSerial.CoinsRoundTrip: the memory-only field `nRounds` of an output is not stored, so it comes back as its default.
- `Select_`, `GetChance` and the probabilities of the random choices: floating point and randomness.
- AddrMan.CAddrMan.Unserialize: says nothing of the state after a stream that ends early or an assertion that fails.
- AddrOps.StepKeepsDates: requires times after 1970, because the consistency check rejects others.
- `CNetAddr` routability, groups and keys are parameters of the address manager; integer widths of times and counters beyond `nTime` are not modelled.
- `getdouble`, `GetHex`, `SetHex`, bitwise operators and conversions of `base_uint`; the friend operators are copies followed by the operators modelled.
- Chain.CChain.GetLocator: block heights are integers, so the overflow of `nStep` for chains of 2^30 blocks and more is not modelled.
- `pprev` and `nHeight` of a block do not change after it is entered; status flags, chain work and `GetMedianTimePast` are not part of this model.
- Base58.DecodeBase58: a string is a sequence of characters that ends where it ends, so an embedded NUL is not modelled; sizes that overflow `int` are not either.
- `CBitcoinAddress`, `CBitcoinSecret` and the other users of Base58.
- Keys and values of the bounded caches are integers, and the 32-bit size field does not wrap.
- The sizing formulas of Bloom filters (logarithms), `IsRelevantAndUpdate`, and MurmurHash3 itself; hashing into an empty array divides by zero in the source, so filters that would do so are not asked.
- Bloom.CRollingBloomFilter.Insert: requires a filter made for at least one element and arrays that are not empty, because otherwise the source divides by zero.
- `ToSeed` (PBKDF2) and secure memory of mnemonic phrases; the word list is any list of 2048 different words without spaces (the one in the repository replaces "coin" by "OIOCoin").
- Governance, masternodes, alerts, the wallet, networking, scripts and consensus rules; and all PHP and Python programs of the repository, which are scrapers and automation with little state of their own.
