# Viper/HiOM: a verified model of the persistent-memory key-value store

This project models five cooperating pieces of the store and proves, for all inputs, all interleavings and all
points at which the process can be killed, what their comments and tests promise.

* **Cold tier** (`Cold*.dfy`). 32 regions of 7-slot buckets with overflow chains. Every operation is the list of
  its individual stores to persistent memory, so "crash" means "any prefix of that list", and a lock-free reader is
  a machine whose loads fall between those stores. `ColdRegion` has the memory and the chain invariant,
  `ColdSteps` what one store may change, `ColdUpsert` and `ColdGroup` the simple and the batched write,
  `ColdCrash`, `ColdCount` and `ColdReader` crash states, the entry counter and linearizability, `ColdMap` the map
  over whole runs, `ColdTier`, `ColdBulk` and `ColdScan` the class and its loops.
* **Page engine** (`BlockClaim`, `PutEngine`, `PutRuns`, `PutRecovery`, `LockIntent`, `LockAlone`, `LockTraces`,
  `Seqlock`). State machines over the atomic steps of any number of threads, with any number of kills and recoveries.
  `PutRuns` says what a put that returns has done, and `LockAlone` what locking and repairing do without interference.
* **Checkpoint** (`Fnv`, `Checkpoint`). The A/B file down to its bytes, torn copies included.
* **Hot tier** (`HotBucket`, `HotTable`, `HotExact`, `HotTier`, `HotRace`). SIEVE eviction and runs of cache operations;
  `HotExact` tells every slot, visited bit, state, hand and counter after each operation, and `HotRace` looks at eviction
  and pinning instruction by instruction.
* **CCEH** (`CcehSegment`, `CcehExact`, `CcehDirectory`, `Cceh`, `CcehInsert`, `CcehDrop`). Segment split, directory
  update and insertion into a segment, sequentially.

`FlushCoverage` says which cache lines the persist loops reach and `OffsetCodec` is the compact-offset codec.
`Options` and `Powers` hold what several modules share.

## Assumptions

* The crash model is process kill: every executed store survives, and the kill falls between any two stores.
* Memory is sequentially consistent; one model step is one atomic load, store or read-modify-write.
* Hash mixers (`bucket_id_of`, `bucket_index`, CCEH's `h`) are arbitrary functions; one key always arrives with the
  same routing hash. FNV-1a is modelled exactly.
* `ViperPage::init` is one step, and block reclamation is off.
* In `PutEngine` page locks exclude: no repair clears the lock of a live thread. `LockIntent.RepairExact` says exactly
  when a repair would, and `Seqlock` allows it. Stale locks are repaired at a restart.
* In `PutEngine` the index update is the atomic insertion of `include/viper/viper.hpp:1884-1905`, with no resolver
  installed. Where HiOM owns the
  index (`include/viper/viper.hpp:1859-1883`) `put` asks a resolver for the old offset and updates no index itself; the
  update is made outside these files and is not modelled.
* Recovery's insertions into the index take effect one at a time, each thread's in scan order.
* The atomic words of a bucket header and of a page lock are records of their bit fields; `LockIntent.ByteOps` ties
  the page lock back to its byte.

## Where comments and code differ

The model follows the code.

* `include/viper/viper.hpp:750-756` argues that repair can hit a live lock only after 64 or more lock cycles. Exactly,
  a repair whose compare-and-swap hits clears a live lock iff anybody acquired the page since its second load
  (`LockIntent.RepairExact`). The version is six bits and steps by two, so 32 cycles suffice
  (`LockTraces.CounterWrap`), and with a second repairer one acquisition does, because repair does not advance the
  version (`LockTraces.TwoRepairers`). After such a repair a read can be torn with no cycle at all
  (`Seqlock.TornByRepair`).
* `include/viper/viper.hpp:1537-1593`: recovery indexes one live record of each key and frees none of the others. A put
  killed between publication and free leaves such a record behind (`PutRecovery.OrphansArise`), and a later recovery may
  bring its value back over one put since (`PutRecovery.OldValueReturns`); `PutRecovery.QuietKeyRecovers` says exactly
  when it cannot.
* `include/viper/hiom/hot_tier.hpp:506-508` says pinned slots are never evicted. That holds when operations do not
  overlap (`HotTable.PinnedStays`). State check and compare-and-swap of the evictor are separate instructions, and so
  are the compare-and-swap and the pin store of `upsert_pinned`. An entry can be cleared after it was pinned
  (`HotRace.PinnedEntryEvicted`), or between its placement and its pin, which then lands on an empty slot
  (`HotRace.PinAfterEviction`); `HotRace.PinLostIff` says exactly when.
* `include/viper/cceh.hpp:446-455` stores the pair it is given only if its window has a free slot. In a segment whose
  windows have wrapped past its end a split can lose a pair (`CcehDrop.InsertedThenLost`);
  `CcehExact.SplitExact` and `CcehDirectory.SplitKeepsIff` say exactly when a split keeps every lookup.
* `include/viper/cceh.hpp:405-438`: after a slot with the same fingerprint but another key, the compare value of the
  next claim is that fingerprint instead of the empty key. A free slot is passed over iff it comes right after such a
  slot (`CcehInsert.SkipsIff`), and the pair of another key is overwritten iff the walk meets two such slots side by side
  (`CcehInsert.OverwritesIff`). `CcehInsert.OthersKeptIff` says exactly when another key is lost by this, and
  `CcehInsert.ThirdLosesSecond` gives three keys with one fingerprint that arrive there.
* `include/viper/viper.hpp:205-214` says the flush loops reach every line of their range. They start at the given
  address, so an unaligned range can lose its last line (`FlushCoverage.CoversIff`); whole cold-tier entries in a
  quarter of the slots are such ranges (`FlushCoverage.EntryCoveredIff`).
* `include/viper/hiom/cold_tier.hpp:847-849` puts headers on a separate cache line from entries; header and first
  entries share a line, and the proofs do not rely on it.
* `include/viper/hiom/cold_tier.hpp:530-556`: `remove` answers true for a slot that is already a tombstone.

## Model

| member | source | states |
|---|---|---|
| `ColdRegion.Find` | include/viper/hiom/cold_tier.hpp:498-528 | a slot the chain walk finds is published, on this chain, with the key |
| `ColdRegion.EntIs` | include/viper/hiom/cold_tier.hpp:498-528 | and any such slot is the one it finds: each key has at most one published slot, whose offset is its entry |
| `ColdRegion.ReachBound` | include/viper/hiom/cold_tier.hpp:316-342 | a bucket further down a chain is an overflow bucket of larger index, so walks terminate |
| `ColdRegion.ChainsDisjoint` | include/viper/hiom/cold_tier.hpp:382-416 | every bucket lies on at most one chain |
| `ColdRegion.NewRegionEmpty` | include/viper/hiom/cold_tier.hpp:217-253 | a created region satisfies the invariant and maps no key |
| `ColdSteps.StoreUnpublished` | include/viper/hiom/cold_tier.hpp:351-364 | a store into an unpublished slot keeps the invariant and no key's entry changes |
| `ColdSteps.StorePublish` | include/viper/hiom/cold_tier.hpp:371-373 | setting occupancy bits shows only complete pairs of the keys being written |
| `ColdSteps.StoreOffset` | include/viper/hiom/cold_tier.hpp:327-332 | overwriting the offset of a published slot sets that key's entry and keeps every other |
| `ColdSteps.StoreLink` | include/viper/hiom/cold_tier.hpp:411-417 | linking a prepared overflow bucket keeps the invariant and can show only the one pair in it |
| `ColdUpsert.UpsertCorrect` | include/viper/hiom/cold_tier.hpp:298-420 | after each of its stores the invariant holds and only the given pair can differ; success maps the key to the offset, failure restores memory, no other key changes |
| `ColdUpsert.UpsertRoom` | include/viper/hiom/cold_tier.hpp:322-390 | an upsert succeeds iff the key is stored, its chain has an unpublished slot or the pool has a bucket, and takes a bucket iff only the last holds |
| `ColdUpsert.RemoveCorrect` | include/viper/hiom/cold_tier.hpp:530-556 | the key is absent afterwards, its slot stays published, nothing else changes, and success means a published slot existed, tombstoned or not |
| `ColdGroup.GroupRefines` | include/viper/hiom/cold_tier.hpp:698-864 | for every bucket state and every group, the batched write leaves exactly the buckets, links and counters that upserting the first `written` pairs one by one leaves, and stops only where the next upsert would fail; every store on the way is harmless |
| `ColdGroup.FlipCorrect` | include/viper/hiom/cold_tier.hpp:847-861 | the second phase turns staged memory into the overlay the first phase worked on, one bucket header at a time |
| `ColdGroup.EntryRefines` | include/viper/hiom/cold_tier.hpp:729-840 | staging one pair is one upsert as seen through the claimed bits |
| `ColdCrash.CrashSafe` | include/viper/hiom/cold_tier.hpp:350-419 | after any number of stores of an upsert, a removal or a group: invariant, and every entry is the old one or a pair being written on that chain |
| `ColdCrash.ReplayWithRoom` | include/viper/hiom/cold_tier.hpp:786-863 | with room before the crash for twice what the operation may need, running it again after a crash at any store gives every key the entry an uncrashed run gives |
| `ColdCrash.Replay` | include/viper/hiom/cold_tier.hpp:786-863 | the same whenever both runs find room |
| `ColdCrash.CrashedAlloc` | include/viper/hiom/cold_tier.hpp:802-811 | a crashed operation has taken at most one overflow bucket per pair |
| `ColdCrash.RoomFits` | include/viper/hiom/cold_tier.hpp:382-390 | one free overflow bucket per pair is always room enough |
| `ColdCrash.NewRegionRoom` | include/viper/hiom/cold_tier.hpp:217-253 | a created region has room for an operation on as many pairs as it has overflow buckets |
| `ColdCrash.OpEffect` | include/viper/hiom/cold_tier.hpp:298-556 | each finished operation does to the stored map exactly what it performed, for every key of every chain |
| `ColdCount.CountOp` | include/viper/hiom/cold_tier.hpp:371-420 | every finished operation keeps the difference of `num_entries` and the reachable published slots, tombstones included, so an exact counter stays exact |
| `ColdCount.CrashDrift` | include/viper/hiom/cold_tier.hpp:371-420 | a kill after any number of stores changes that difference by at most the pairs of the killed operation |
| `ColdReader.LookupLinearizable` | include/viper/hiom/cold_tier.hpp:498-528 | whatever stores of whatever writer operations fall between its loads, a lookup answers with a value or an absence the key had at some moment of the call |
| `ColdReader.LookupAlone` | include/viper/hiom/cold_tier.hpp:498-528 | a lookup that nothing interferes with answers, within nine steps per bucket, with the value the key has |
| `ColdMap.StepInv` | include/viper/hiom/cold_tier.hpp:298-556 | finished or killed, every operation keeps all regions legal and every key on the chain its routing hash selects |
| `ColdMap.StepKept` | include/viper/hiom/cold_tier.hpp:350-419 | tier-wide: a killed operation leaves every key its old offset or one being written for it |
| `ColdMap.RunRefines` | include/viper/hiom/cold_tier.hpp:298-556 | over every crash-free run the tier is the finite map obtained by folding the operations key by key, and all counters are exact |
| `ColdMap.RunWithKills` | include/viper/hiom/cold_tier.hpp:298-556 | over every run with kills at any store, each key ends with an entry the run allows: exact effect of finished operations, old or offered offset for killed ones |
| `ColdMap.RunDrift` | include/viper/hiom/cold_tier.hpp:298-556 | over every run with kills, the counter of each region drifts by at most the pairs of the operations killed in it |
| `ColdMap.RegionIdOf` | include/viper/hiom/cold_tier.hpp:637-639 | routing always names one of the 32 regions |
| `ColdMap.TopBits` | include/viper/hiom/cold_tier.hpp:637-639 | the region number is what stands above the low 59 bits of the routing hash |
| `ColdMap.BucketIdOf` | include/viper/hiom/cold_tier.hpp:647-653 | routing always names a main bucket |
| `ColdTier.ScanBucket` | include/viper/hiom/cold_tier.hpp:322-338 | first live slot with the key, else the first reusable slot seen |
| `ColdTier.WalkChain` | include/viper/hiom/cold_tier.hpp:316-342 | one pass over a chain yields the published slot of the key, else first reusable slot and tail |
| `ColdTier.FindPublished` | include/viper/hiom/cold_tier.hpp:498-528 | the reader's walk finds the key's published slot iff there is one |
| `ColdTier.ColdTier.constructor` | include/viper/hiom/cold_tier.hpp:217-253 | an empty legal tier with exact counters, whatever the routing |
| `ColdTier.ColdTier.Upsert` | include/viper/hiom/cold_tier.hpp:298-420 | issues exactly the specified stores in order, on one region; false iff the pool is exhausted |
| `ColdTier.ColdTier.Lookup` | include/viper/hiom/cold_tier.hpp:498-528 | at rest, the key's offset, tombstones read as absent |
| `ColdTier.ColdTier.Remove` | include/viper/hiom/cold_tier.hpp:530-556 | one tombstone store; true iff the key has a published slot |
| `ColdTier.ColdTier.ExtendChain` | include/viper/hiom/cold_tier.hpp:378-420 | claims, fills and publishes a fresh bucket before linking it, or puts the cursor back |
| `ColdTier.ColdTier.StagePair` | include/viper/hiom/cold_tier.hpp:755-840 | phase one of the group for one pair: its stores and its dirty bit |
| `ColdTier.ColdTier.FlipBits` | include/viper/hiom/cold_tier.hpp:847-861 | phase two: one header store per dirty bucket |
| `ColdTier.ColdTier.ApplyBucketGroup` | include/viper/hiom/cold_tier.hpp:698-864 | issues exactly the group's stores in order and returns how many pairs were written |
| `ColdBulk.BulkUpsert` | include/viper/hiom/cold_tier.hpp:458-494 | leaves exactly the tier that upserting the entries one by one leaves, where a failing one makes the rest of its run for one chain be skipped, and returns how many were written |
| `ColdBulk.GroupIsOneByOne` | include/viper/hiom/cold_tier.hpp:476-491 | each batched group is the upserts of its run, as far as they succeed |
| `ColdBulk.BulkMap` | include/viper/hiom/cold_tier.hpp:453-494 | the map afterwards is the old one overridden by exactly the entries written, in order, for every key |
| `ColdBulk.BulkStops` | include/viper/hiom/cold_tier.hpp:453-456 | for an entry not written: its chain is full and the pool of its region used up; nothing of its run behind it is written; and the first such of a run has a key that was neither stored nor written by an earlier entry |
| `ColdBulk.BulkShort` | include/viper/hiom/cold_tier.hpp:453-456 | fewer written than given means that such an entry exists |
| `ColdBulk.BulkRoom` | include/viper/hiom/cold_tier.hpp:453-456 | with an overflow bucket left in each region for every entry that goes there, all are written |
| `ColdBulk.OrderIrrelevant` | include/viper/hiom/cold_tier.hpp:460-469 | with distinct keys, entries override alike in whatever order the sort chooses |
| `ColdScan.ScanChain` | include/viper/hiom/cold_tier.hpp:866-884 | visits the published live slots of a chain in order |
| `ColdScan.RegionOnce` | include/viper/hiom/cold_tier.hpp:579-584 | a region's scan visits each of its live keys once with its current offset and nothing else |
| `ColdScan.ScanThread` | include/viper/hiom/cold_tier.hpp:569-573 | a worker adds exactly the live keys of the regions of its stride, whatever the earlier workers did |
| `ColdScan.ParallelLoad` | include/viper/hiom/cold_tier.hpp:562-584 | for every thread count, 0 and more than 32 included: each live key exactly once with its current offset, nothing else |
| `BlockClaim.RecoveryCeiling` | include/viper/viper.hpp:1637-1722 | over every interleaving and any number of kills, the mark exceeds the block of every live record and no two clients own one block |
| `BlockClaim.ClaimIsFresh` | include/viper/viper.hpp:1687-1722 | a claim, also after a reopen, never returns a block with a live record or one another client has |
| `BlockClaim.WriteThenKill` | include/viper/viper.hpp:1668-1680 | a record just written survives kill and reopen below the recovered ceiling |
| `BlockClaim.ClaimsInOrder` | include/viper/viper.hpp:1687-1722 | within one process, over every interleaving, successive claims get successive blocks |
| `BlockClaim.ClaimAlone` | include/viper/viper.hpp:1637-1722 | a client left alone owns the block at the cursor after four steps, with the mark raised just past it |
| `PutEngine.FirstFree` | include/viper/viper.hpp:1828-1829 | the first set bit of the free bitmap, or its size |
| `PutEngine.StepInv` | include/viper/viper.hpp:1816-1926 | every store of every client, and every kill with recovery, keeps: index entries are live records of their keys, every live record is complete and in exactly one role, page locks exclude |
| `PutEngine.KillLosesNothing` | include/viper/viper.hpp:1816-1926 | at every moment of every run, through any number of kills and recoveries, a key once present has a live record, every live record was passed whole to a put, and one outside the index is the new or the superseded record of an unfinished put of its key or was passed over by an earlier recovery |
| `PutEngine.QuietKeyUnique` | include/viper/viper.hpp:1907-1913 | a key nobody is putting has exactly one live record, the indexed one, besides orphans of earlier recoveries |
| `PutEngine.ValueChangesAtSwap` | include/viper/viper.hpp:1884-1905 | within a process a key's value changes only at the index update of a put of that key, to the value put; a recovery picks one of its live records |
| `PutEngine.RestartInv` | include/viper/viper.hpp:1537-1593 | recovery loses no key and keeps the invariant |
| `PutRecovery.QuietKeyRecovers` | include/viper/viper.hpp:1537-1593 | for a key nobody is putting, every recovery gives the current record iff each orphan of the key is overridden by a later record of the key in its own recovery thread |
| `PutRecovery.OrphansArise` | include/viper/viper.hpp:1537-1593 | a recovery leaves an orphan of a key iff there was one already or the kill fell between publication and free of a put of that key, whichever record it takes |
| `PutRecovery.OldValueReturns` | include/viper/viper.hpp:1537-1593 | an instance: a put killed before its index update, a later put of the key that returns, each on a page fresh in its process, and a second kill; a recovery may then bring back the value from before both |
| `PutEngine.OtherKeysUntouched` | include/viper/viper.hpp:1816-1926 | a put changes, removes and makes no live record of another key |
| `PutRuns.PutReturned` | include/viper/viper.hpp:1816-1926 | among any other clients, a put that began on a page with a free slot and has returned published its own record in the first free slot, then indexed it, then freed the record indexed before, and holds no lock |
| `PutRuns.PutAlone` | include/viper/viper.hpp:1816-1926 | without interference it returns after at most eight steps with exactly that done: no other record, lock or client differs |
| `PutRuns.FullPage` | include/viper/viper.hpp:1831-1839 | on a full page it gives the lock back and has stored nothing |
| `PutRuns.StepOwned` | include/viper/viper.hpp:1816-1926 | a locked page is always locked by a client at a point of its put where it holds that page |
| `PutEngine.VisitRecords` | include/viper/viper.hpp:658-679 | the scan visits every live record of its range exactly once, in order, and nothing else |
| `LockIntent.ByteOps` | include/viper/viper.hpp:318-335 | lock, unlock and repair on the word are the byte arithmetic of the source |
| `LockIntent.NextInv` | include/viper/viper.hpp:757-822 | every step of every thread keeps the registry and lock invariant of a page whose own repairs are disciplined |
| `LockIntent.NextHeld` | include/viper/viper.hpp:793-822 | a lock acquired since a repairer's second load is that of a live thread, and another repair implies such an acquisition |
| `LockIntent.AlwaysRegistered` | include/viper/viper.hpp:757-776 | over every interleaving, undisciplined repairs included, a page holder's intent is registered for its whole hold |
| `LockIntent.HeldIsRegistered` | include/viper/viper.hpp:757-822 | with disciplined repairs of this page alone, the held page is also really locked and has one holder |
| `LockIntent.RepairExact` | include/viper/viper.hpp:793-822 | a repair of a page whose compare-and-swap hits finds a live holder iff another repair or 32 acquisitions intervened, iff anybody acquired the page since its second load; earlier repairs of this page being disciplined |
| `LockAlone.RepairAlone` | include/viper/viper.hpp:793-822 | a repair that nothing interferes with clears a locked page's lock bit iff no intent is registered for the page, and changes nothing else |
| `LockAlone.LockAlone` | include/viper/viper.hpp:318-335 | a thread left alone locks and unlocks a free page: the version is one cycle further and the registry as before |
| `LockTraces.TwoRepairers` | include/viper/viper.hpp:793-822 | an instance: the second of two repairers clears a live lock after one acquisition |
| `LockTraces.CounterWrap` | include/viper/viper.hpp:329-335 | an instance: a lone repairer clears a live lock after exactly 32 acquisitions |
| `Seqlock.ReadAtomic` | include/viper/viper.hpp:2636-2664 | with repair free to hit any lock: a read that answers `kOk` copied the record while no write section ran iff fewer than 32 cycles completed and no live lock was cleared between its version loads, and nobody whose lock was cleared earlier was inside at the first |
| `Seqlock.ReadAtomicUnbroken` | include/viper/viper.hpp:2636-2664 | with no live lock ever cleared: iff fewer than 32 cycles completed |
| `Seqlock.ReadAnswers` | include/viper/viper.hpp:2636-2664 | over every run, exactly what a read answers: `kSlotFree` iff the slot was free at its first load; else `kTransient` iff the page was locked at the first version load or the word differed at the second; else `kOk` with each word as it was when loaded |
| `Seqlock.TornRead` | include/viper/viper.hpp:318-335 | 32 cycles do let a torn record through, with no repair |
| `Seqlock.TornByRepair` | include/viper/viper.hpp:793-822 | a cleared live lock lets one through with no cycle |
| `Fnv.OneByteDiffers` | include/viper/hiom/checkpoint.hpp:226-236 | two byte strings that differ in exactly one byte have different FNV-1a hashes, from any starting state |
| `Fnv.RoundInjective` | include/viper/hiom/checkpoint.hpp:231-234 | one round loses neither the running hash nor the byte |
| `Fnv.ComputeHash` | include/viper/hiom/checkpoint.hpp:226-236 | the loop computes the hash of the bytes in front of the hash field |
| `Fnv.TestValues` | include/viper/hiom/checkpoint.hpp:226-236 | the published 64-bit hashes of the empty string and of "a" |
| `Checkpoint.ParseBytes` | include/viper/hiom/checkpoint.hpp:52-72 | the little-endian 64-byte layout round-trips |
| `Checkpoint.BytesParse` | include/viper/hiom/checkpoint.hpp:52-72 | and without a gap: what is read back, stored again, gives the same 64 bytes |
| `Checkpoint.SealedReads` | include/viper/hiom/checkpoint.hpp:147-149 | a record as `write` seals it passes `read_slot` unchanged |
| `Checkpoint.ReadSlotIff` | include/viper/hiom/checkpoint.hpp:210-220 | `read_slot` answers with a record iff the slot holds its bytes, its magic number is right and its hash is that of the bytes in front of it |
| `Checkpoint.OneByteRejected` | include/viper/hiom/checkpoint.hpp:210-236 | `read_slot` refuses every record one byte away from one it accepts, hash bytes included |
| `Checkpoint.FaultFallsBack` | include/viper/hiom/checkpoint.hpp:176-187 | with one byte of the active slot wrong, the reader returns what the other slot holds |
| `Checkpoint.StepKeeps` | include/viper/hiom/checkpoint.hpp:147-171 | no store of `write` but the pointer flip changes what a reader sees |
| `Checkpoint.ReadsLastFlipped` | include/viper/hiom/checkpoint.hpp:147-187 | over every run of writes, torn copies, kills and reopens the reader sees exactly the record of the last flip, with no hash assumption |
| `Checkpoint.ReadsWhatWasPassed` | include/viper/hiom/checkpoint.hpp:147-187 | over every run, each field the reader sees is the one passed to the last write that flipped the pointer, and nothing is seen while none has |
| `Checkpoint.ReadsLastCompleted` | include/viper/hiom/checkpoint.hpp:147-187 | the reader sees the last completed record, or the one in progress once flipped, unless a kill fell between a flip and its return |
| `Checkpoint.SeqNeverBack` | include/viper/hiom/checkpoint.hpp:143-146 | with sequence numbers the caller never lowers, the one seen never goes backward |
| `Checkpoint.CheckpointFile.constructor` | include/viper/hiom/checkpoint.hpp:87-113 | a zeroed file with no checkpoint |
| `Checkpoint.CheckpointFile.Write` | include/viper/hiom/checkpoint.hpp:147-171 | performs one run of the machine, tearing the inactive slot byte by byte and then flipping; the other slot stays; every field read back is the one passed, under the magic number |
| `Checkpoint.CheckpointFile.ReadSlotAt` | include/viper/hiom/checkpoint.hpp:210-220 | the record of a slot iff magic and hash fit |
| `Checkpoint.CheckpointFile.ReadValidRecord` | include/viper/hiom/checkpoint.hpp:176-187 | the active slot's record, else the other's, none without a pointer |
| `HotBucket.SieveExact` | include/viper/hiom/hot_tier.hpp:516-549 | eviction fails iff no slot is unpinned, changing nothing; else it frees the first unpinned unvisited slot from the hand, or the first unpinned one if all were visited, and otherwise takes only visited bits of unpinned slots it passed |
| `HotBucket.VictimUnique` | include/viper/hiom/hot_tier.hpp:510-515 | that specification leaves no choice of victim or of resulting bucket |
| `HotBucket.SieveEvict` | include/viper/hiom/hot_tier.hpp:516-549 | the 32-step loop is the sweep the exactness result is about |
| `HotBucket.Probe` | include/viper/hiom/hot_tier.hpp:138-162 | the matching slot, else the first empty one |
| `HotTable.PlaceFailsIff` | include/viper/hiom/hot_tier.hpp:164-177 | an entry is not stored iff its fingerprint is absent, the bucket full and no slot unpinned |
| `HotExact.PlaceExact` | include/viper/hiom/hot_tier.hpp:128-191 | an entry goes to its own slot, else the first empty one, else the victim; the visited bit is set by an update and clear after a new entry; hand and other bits change only as the sweep says |
| `HotExact.StepExact` | include/viper/hiom/hot_tier.hpp:128-399 | for every operation and every bucket: slots, visited bits, states and hand afterwards, and the eviction and pin-failure counters |
| `HotExact.PinRefExact` | include/viper/hiom/hot_tier.hpp:200-263 | the reference returned is invalid iff every slot is blocked, and else names the slot that holds the entry, pinned |
| `HotExact.HitKept` | include/viper/hiom/hot_tier.hpp:279-336 | no operation but its removal or a sweep takes a hit entry or its bit, and a sweep spares it while an unpinned slot of its bucket is unvisited |
| `HotExact.HitSurvives` | include/viper/hiom/hot_tier.hpp:506-549 | over every run: an entry hit since the last sweep of its bucket is not the next victim while an unpinned slot is unvisited |
| `HotTable.StepInv` | include/viper/hiom/hot_tier.hpp:128-399 | every operation keeps: fingerprints unique and in their bucket, `size` the number of occupied slots |
| `HotTable.OwnAfter` | include/viper/hiom/hot_tier.hpp:128-191 | a write is answered with its own offset iff it was placed, a removal with nothing |
| `HotTable.OthersAfter` | include/viper/hiom/hot_tier.hpp:128-399 | other fingerprints are answered as before or have been evicted |
| `HotTable.CoherentCache` | include/viper/hiom/hot_tier.hpp:128-399 | over every run a lookup gives nothing or the last offset written and not removed; one slot per fingerprint; `size` exact |
| `HotTable.PinnedStays` | include/viper/hiom/hot_tier.hpp:200-263 | an entry placed by `upsert_pinned` stays findable with the last offset written through every run that neither removes it nor releases its slot |
| `HotTier.HotTier.PlaceEntry` | include/viper/hiom/hot_tier.hpp:128-263 | the common body of the two upserts is the table operation, counters included |
| `HotTier.HotTier.Upsert` | include/viper/hiom/hot_tier.hpp:128-191 | the table step; returns the offset replaced |
| `HotTier.HotTier.UpsertPinned` | include/viper/hiom/hot_tier.hpp:200-263 | the table step; returns where the entry was pinned, if anywhere |
| `HotTier.HotTier.Lookup` | include/viper/hiom/hot_tier.hpp:279-336 | the stored offset; sets the visited bit on a hit |
| `HotTier.HotTier.Remove` | include/viper/hiom/hot_tier.hpp:379-399 | true iff the fingerprint was present; state bits of the slot stay |
| `HotTier.HotTier.CasSlotState` | include/viper/hiom/hot_tier.hpp:98-101 | moves the slot's state iff it was the expected one |
| `HotTier.HotTier.Release` | include/viper/hiom/hot_tier.hpp:270-275 | the slot becomes unpinned whatever it was |
| `HotRace.SoloIsSieve` | include/viper/hiom/hot_tier.hpp:516-549 | left alone, the instructions compute the atomic sweep, from every position of it |
| `HotRace.ClearsIff` | include/viper/hiom/hot_tier.hpp:516-549 | under any stores of other threads between its four instructions, an examination clears its slot iff its loads saw the slot unpinned, unvisited and occupied, and the word is the loaded one at the compare-and-swap |
| `HotRace.PinLostIff` | include/viper/hiom/hot_tier.hpp:217-252 | for every interleaving of a pinning placement with an examination of its slot, nobody else storing that slot meanwhile: the entry is lost, and the slot left empty and pinned, iff the state load precedes the pin store, the visited load sees the bit clear, and the slot load follows the placing compare-and-swap or saw the same word, with the evictor's own after it |
| `HotRace.PinnedEntryEvicted` | include/viper/hiom/hot_tier.hpp:521-537 | in every bucket with an exposed entry: it is updated, pinned and then cleared |
| `HotRace.PinAfterEviction` | include/viper/hiom/hot_tier.hpp:243-252 | in every bucket with an exposed empty slot: a new entry is cleared between its placement and its pin |
| `CcehSegment.GetIsFirst` | include/viper/cceh.hpp:641-656 | the probe loop returns the first acceptable value of the key in probe order |
| `CcehSegment.ProbeOrder` | include/viper/cceh.hpp:641-643 | probe order of a key is slot order from its home on, then what has wrapped |
| `CcehSegment.InsertWindowed` | include/viper/cceh.hpp:391-430 | inserting keeps every pair in the window of its home, across the end of the segment |
| `CcehSegment.LandKeeps` | include/viper/cceh.hpp:446-455 | taking the first free slot keeps every pair in its window without gaps, and puts the pair behind all earlier ones of its key |
| `CcehSegment.MovedValues` | include/viper/cceh.hpp:475-490 | unless a pair is dropped, the new segment has each moved key's values in the old slot order |
| `CcehExact.SplitExact` | include/viper/cceh.hpp:446-490 | every concerned lookup keeps its answer, whatever values are accepted, iff at each moved pair the window in the copy built so far has a free slot or an equal pair, and for each such key the values before and behind the segment's end begin alike, repetitions aside, as far as the shorter list goes |
| `CcehExact.SplitKeepsGet` | include/viper/cceh.hpp:446-490 | where no pair sits before its home that condition holds, repeated fingerprints included |
| `CcehSegment.MovedTidy` | include/viper/cceh.hpp:446-490 | whatever it drops, a split leaves pairs in their windows |
| `CcehDirectory.SplitInv` | include/viper/cceh.hpp:541-592 | every directory entry keeps its index, shifted by depth minus local depth, as its segment's pattern, and entries with equal leading bits share a segment; by chunk rewrite or by doubling |
| `CcehDirectory.ServedBy` | include/viper/cceh.hpp:541-592 | a hash is served by the new segment iff the old one served it and its next bit is set |
| `CcehDirectory.SplitKeepsIff` | include/viper/cceh.hpp:446-592 | split and directory update, by chunk rewrite or doubling, change the answer to no lookup of any key iff that condition holds for the pairs and keys the split segment serves |
| `CcehDirectory.SplitPreservesGet` | include/viper/cceh.hpp:446-592 | in particular where no pair of the split segment sits before its home |
| `CcehDirectory.SplitWindows` | include/viper/cceh.hpp:446-592 | every segment keeps its pairs in their windows |
| `CcehInsert.InsertIs` | include/viper/cceh.hpp:391-438 | where the walk of an insertion stores, empties and passes, read off the segment before it |
| `CcehInsert.OverwritesIff` | include/viper/cceh.hpp:405-438 | a pair that fails the check is changed iff the walk meets two neighbouring positions with the fingerprint that both fail it, before any position it stores at |
| `CcehInsert.SkipsIff` | include/viper/cceh.hpp:405-438 | a free position the walk gets to is passed over iff the one before it holds the fingerprint and fails the check |
| `CcehInsert.OthersKeptIff` | include/viper/cceh.hpp:391-438 | every other key of the fingerprint stays findable iff no pair overwritten so was the only one of its kind in the window |
| `CcehInsert.ThirdLosesSecond` | include/viper/cceh.hpp:391-490 | for every fingerprint: two keys inserted, the segment split, and the insertion of a third loses the second, found before |
| `CcehDrop.SplitDrops` | include/viper/cceh.hpp:446-455 | in every segment crowded across its end, a pair found before the split is lost by it |
| `CcehDrop.ExampleArises` | include/viper/cceh.hpp:391-430 | twenty insertions into an empty segment make such a segment |
| `CcehDrop.InsertedThenLost` | include/viper/cceh.hpp:391-490 | so a key inserted, and found, is not found after the split |
| `Cceh.Insert4Split` | include/viper/cceh.hpp:446-455 | the first free slot of the window takes the pair, in place |
| `Cceh.CopyHalf` | include/viper/cceh.hpp:475-490 | the loop of `Split` copies the pairs whose next bit is set |
| `Cceh.RewriteChunk` | include/viper/cceh.hpp:551-568 | both branches redirect exactly the second half of the chunk |
| `Cceh.DoubleDirectory` | include/viper/cceh.hpp:570-583 | each entry twice, the split one to its two halves |
| `Cceh.FreshInv` | include/viper/cceh.hpp:500-507 | the constructed directory is consistent and its segments unwrapped |
| `Cceh.Cceh.Split` | include/viper/cceh.hpp:534-592 | keeps the directory invariant and is the modelled split |
| `Cceh.Cceh.Get` | include/viper/cceh.hpp:613-656 | the answer of the segment the leading bits select |
| `FlushCoverage.FlushRange` | include/viper/viper.hpp:196-221 | the loop reaches as many lines as the length needs, from the first byte's line on |
| `FlushCoverage.CoversIff` | include/viper/viper.hpp:196-221 | a range is covered iff `addr mod 64 + len` is at most its length rounded up to lines |
| `FlushCoverage.CheckpointCovered` | include/viper/hiom/checkpoint.hpp:76-80 | both checkpoint slots and the valid pointer are always covered |
| `FlushCoverage.HeaderCovered` | include/viper/hiom/cold_tier.hpp:655-673 | bucket headers and single entry words are always covered |
| `FlushCoverage.EntryCoveredIff` | include/viper/hiom/cold_tier.hpp:655-673 | entry `i` of region `r` is covered iff `(r + i) mod 4` is not 2, and otherwise its offset word's line is missed |
| `OffsetCodec.DecodeEncode` | include/viper/hiom/offset_codec.hpp:74-124 | what is encoded decodes to itself and is never the sentinel |
| `OffsetCodec.EncodeDecode` | include/viper/hiom/offset_codec.hpp:74-124 | every 32-bit word but the sentinel is the encoding of what it decodes to, in every region |
| `OffsetCodec.EncodableIff` | include/viper/hiom/offset_codec.hpp:74-102 | exactly the triples in range can be encoded, but for the one that would be the sentinel |
| `OffsetCodec.EncodedFields` | include/viper/hiom/offset_codec.hpp:74-102 | block, page and slot stand in bits 11 to 31, 8 to 10 and 0 to 7, the block above the region's high bits |
| `OffsetCodec.DecodedFields` | include/viper/hiom/offset_codec.hpp:112-124 | and are taken from there, with high bits 0 for an unknown region |
| `OffsetCodec.PackIsSum` | include/viper/hiom/offset_codec.hpp:94-99 | shifts and bitwise or of the three fields are the sum the model uses |

## Left out

- Power loss and persist ordering: under process kill every store survives; `next_overflow_alloc` is never persisted by the source, so a power-loss model would need it assumed durable.
- Weak memory orders, and the SIMD probe of `HotTier::lookup`, which only filters slots that are then re-read.
- `hiom.hpp` (flushers, pending ring, durable frontier, tail replay) and `commit_buffer.hpp`.
- File, mmap, resize, prefault, timing and statistics code.
- Variable-size (`std::string`) pages, `compact` and `reclaim`, and in-place `update`.
- Region mutexes as objects: a region has one writer at a time by construction of the model.
- The comparison sort inside `bulk_upsert`: its output is a parameter. `ColdBulk.OrderIrrelevant` covers the choice where all entries are written; where a pool runs out, which ones are written depends on it.
- The bits of a cold-tier bucket header and of the hot tier's state and visited words: records and sequences of fields.
- `free_occupied_slot`'s deadlock-offset queue and `remove` on the client's own page: a delegated free can be repeated and `remove` edits the bitmap without the lock, so no exactly-once statement holds.
- `put` with `delete_old` off or `assume_new` on: the superseded record is then kept by the caller's choice.
- `recover_database`: the block ranges of its threads (any assignment of pages to threads is allowed), and its division by zero threads on a pool with no used block.
- PutEngine.StepInv: waits and retries are steps that change nothing, so progress is shown for a put left alone (`PutRuns.PutAlone`) and deadlock between puts is not excluded; no repair clears a live lock.
- PutEngine.KillLosesNothing: rests on the same two premises, exclusive page locks and an atomic index update.
- PutEngine.ValueChangesAtSwap: does not cover `put` with HiOM owning the index, which updates no index itself.
- HotTier.HotTier.PlaceEntry: the 16-retry loop is not modelled, because without interference the first attempt succeeds.
- CCEH `Insert` of a tombstone and deletes, CCEH as one map over many inserts, concurrent CCEH, and its persistent variant: stale or tombstoned slots let an insert duplicate a key later in its window.
- Cceh.Cceh.Split: segments are positions in a sequence where the source has pointers, so freeing the old directory is not captured.
- CcehDirectory.SplitKeepsIff: local depths are at least 1, since a depth of 0 shifts a 64-bit hash by 64.
- Hash quality and fingerprint-collision probability.
