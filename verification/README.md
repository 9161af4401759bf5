# xZTL in Dafny

A model, with proofs, of the parts of xZTL that turn user buffers into striped zone writes, keep a file
table over them, and find both again after a crash. Each module follows one component:

| module | component |
|---|---|
| `Layout` | which zone and height a unit of a node has; the image of a node and its stripes |
| `Provision` | `ztl_pro_new`, `ztl_pro_grp_get`, `ztl_pro_free`: shares and write pointers |
| `WritePath` | the media commands of a user write |
| `ReadPath` | the read planner and the completion of its commands |
| `Submission` | the submission protocol as a state machine over the device's write pointers |
| `Agreement` | writer, protocol and reader name the same places |
| `NodeGroup` | node lists, valid counts, trim and reset, over all runs of all levels |
| `Tailq` | the pointers behind the node lists |
| `Zrocks` | `zrocks_write`, `zrocks_read`, `zrocks_trim` on a group of nodes |
| `FileLayer` | files: write cache and pieces behave as one byte sequence |
| `Gc` | migration of a file out of a victim node |
| `MetaCodec` | the bytes of the metadata records and zones |
| `MetaLog` | the two-zone log, its replay and crash consistency |
| `MetaEnv` | the same log as device bytes: flush, switch and load |
| `Recovery` | start-up: node table from the zone report, counts from the files, clearing |
| `Crash` | what a crash leaves: torn writes, pieces trimmed before they are logged |
| `Fleet` | several files on one group: writes, migrations, deletions and resets interleaved, and the valid counts |
| `Durable` | sizes, levels and contents of files through the log and a crash |
| `Whole` | nodes, log and restarts as one machine |
| `MapCache` | the page-cached object map |
| `Mempool` | the lock-free pool |
| `RwLock` | the reader/writer lock of a file |

The main results are statements about every run. `NodeGroup.WrittenPieceReadsBack`: a piece written and not
trimmed reads back its bytes whatever else happened. `Agreement.WriteThenRead` and
`Agreement.ReadDuringWrite`: the same at the level of media commands, for every order of completions.
`MetaLog.CrashConsistent` and `MetaEnv.ZnsEnv.LoadMetaData`: power loss recovers the table before or after
the current operation, from bytes. `Durable.RecoveredWholeIff`: how much of each file that is.
`Whole.CrashReadsRecorded`: with nodes and log as one machine, a recovered file reads the bytes of its last
record. `Crash.RestartAgreesIff` and `Crash.CrashInsideOperationIff`: what the nodes themselves are worth
after the crash. `FileLayer.RunCloseRead` and `Fleet.RunAll`: a file is a byte sequence, alone and among
others. `Fleet.CountsMatchIff` and `Fleet.CollectEmptiesIff`: the counts of the nodes, and when a victim is
emptied. `Recovery.StartUp`: every recovered piece reads back, and exactly when start-up re-establishes the
invariant the runs begin with. `Mempool.RunSafe` and `RwLock.ReadersProtected`: the two concurrent
protocols.

Where the code does not keep a property it is meant to keep, the model keeps the code's behaviour and states
exactly when the property holds: `NodeGroup.ResetSafeIff`, `MetaLog.RestartFaithfulIff`,
`MetaLog.UpdateLocalIff`, `MetaLog.RenameAgreesIff`, `MetaLog.CreateAgreesIff`,
`MetaLog.SnapshotFaithfulIff`, `Gc.OffsetKeptIff`, `Gc.DeletedWhileMigratingIff`,
`Recovery.RecoveredInvIff`, `Crash.RestartAgreesIff`, `Crash.CrashInsideOperationIff`,
`Durable.RecoveredWholeIff`, `Fleet.CountsMatchIff`, `Fleet.CollectEmptiesIff`, `Tailq.RemoveWholeIff`,
`Mempool.SafeIff`, and the contracts of `Zrocks.Ztl.Write`, `Zrocks.Ztl.Recycle`,
`FileLayer.ZnsFile.Truncate`, `FileLayer.ZnsFile.Read`, `Recovery.NodeInit`, `Recovery.SetNodesInfo`,
`Recovery.ClearInvalid` and `Recovery.StartUp`. Beside them stand the failing inputs:
`NodeGroup.HeldResetReachable`, `MetaLog.UpdateAfterRenameDuplicates`, `MetaLog.RenameUndoneByRestarts`,
`Gc.PaddingShifts`, `Gc.UnevenPiecesLeak`, `Recovery.LevelsShareNode`, `Recovery.StaleTailReachable`,
`Tailq.StaleTailSharesNode`, `Fleet.RenamedFileStays`, `Durable.CachedBytesLost`,
`Crash.TornWriteReachable`, `Crash.RecycledBeforeLogged` and `Mempool.LargestPoolUnsafe`.

Two conditions are on the history of a run. A restart that replays a Replace record leaves the object under
a key that is not its name, and the snapshot taken next files it under the old name.
`MetaLog.CrashConsistent` therefore speaks of runs in which every restart comes with no rename in the log (a
snapshot has been taken since), or replays every object under its own name; what any other restart does is
stated by `MetaLog.RestartFaithfulIff` and `MetaEnv.ZnsEnv.LoadMetaData`, which have no such condition, and
the zones stay loadable through it (`MetaLog.RunSound`, `MetaLog.ValidZonesLoad`).
`Whole.CrashReadsRecorded` has a second one: no node is reset between the trim of a piece and the record of
its loss, which the code does not ensure (`Whole.EarlyResetLosesIff`).

The device is a byte sequence per zone with a write pointer. The one outside rule is that of
sequential-write-required zones in the NVMe Zoned Namespace Command Set: a write lands on the write pointer.
A node is represented by its image, the byte sequence a user sees, and `Layout.Stripe` says what its 64
zones hold. Struct padding and uninitialised bytes are arbitrary parameters. Sizes, counts and addresses are
unbounded except where width matters: the bit fields of a mapping entry, the fields of the metadata records,
the 64-bit size in Truncate, and the pool's 16-bit counters.

What the code relies on without checking is a `requires` or a step guard: user buffers are not empty and at
most `ZNS_MAX_BUF`; zone capacity is 24576 sectors; a node is chosen and unlinked in one step; a running
group resets a node only from the full list (clearing at start-up resets others too); a file is not updated
between its rename and the next snapshot; the copies of a migration, and in the log the pieces of a Sync,
find space and their I/O succeeds; the zone report of start-up is balanced; a recovered file has no writer;
map ids lie inside the 256 pages; one getter and one putter per pool. Operations on names that are not in
the table do nothing in the code and are not steps of the log.

## Model

| member | source | states |
|---|---|---|
| `Layout.StripeAt` | xztl/src/ztl-io.c:236-251 | byte `p` of a node image sits in zone `u % 64` at height `u / 64` of that zone, `u` being the unit of `p`: the place the read arithmetic computes |
| `Layout.StripeInjective` | xztl/src/ztl-io.c:277-278 | the contents of the 64 zones determine the image |
| `Layout.SharesKeepBalance` | xztl/src/ztl-pro-grp.c:93-118 | giving the k-th zone of the rotation its share turns the balanced distribution of `start` units into that of `start + num` |
| `Layout.HeightOfNext` | xztl/src/ztl-pro-grp.c:93-103 | the pointer of the k-th zone of the rotation stands exactly at the height of unit `start + k` |
| `Layout.ZoneCapacity` | xztl/include/xztl-pro.h:35-37 | no zone passes its capacity while the node has not passed its own |
| `Layout.StripePrefix` | xztl/src/ztl-io.c:440-441 | appending to a node image only extends each zone |
| `Layout.Geometry` | xztl/include/xztl-pro.h:35-37 | 8 sectors of 4 KiB make a unit, 64 zones of 96 MiB a node of 6 GiB |
| `Provision.SharesSum` | xztl/src/ztl-pro-grp.c:97-118 | the shares of the 64 zones sum to the request |
| `Provision.SharesLeft` | xztl/src/ztl-pro-grp.c:97-118 | the allocation loop has units left exactly while the rotation is unfinished, so it ends after min(num, 64) distinct zones |
| `Provision.AllottingStep` | xztl/src/ztl-pro-grp.c:97-118 | each iteration hands out a positive share, the one of its place in the rotation, and keeps the loop state |
| `Provision.AllotmentBalanced` | xztl/src/ztl-pro-grp.c:93-118 | after the loop every zone holds `used/64 + (z < used%64)` units, and the recorded addresses are those of units `start`, `start+1`, ... |
| `Provision.Grant` | xztl/src/ztl-pro-grp.c:98-103 | one iteration records zone, address and share and moves that in-flight pointer only |
| `Provision.Get` | xztl/src/ztl-pro-grp.c:87-121 | the allocation loop terminates; zones, addresses and shares recorded, and the in-flight pointers moved by exactly the shares |
| `Provision.New` | xztl/src/ztl-pro.c:41-63 | a balanced node stays balanced with the new units in flight; the busy count goes up by one |
| `Provision.Free` | xztl/src/ztl-pro.c:31-39 | after the last completion `wptr` equals `wptr_inflight` in every zone, also those not touched; the busy count goes down by one |
| `WritePath.CommandStep` | xztl/src/ztl-io.c:464-497 | making command `n` touches only slot `n % 64` and uses that slot's next address, the address of unit `start + n` |
| `WritePath.SlotLeft` | xztl/src/ztl-io.c:460-462 | the skip-when-exhausted test of a slot is true exactly when all commands were made |
| `WritePath.Issue` | xztl/src/ztl-io.c:464-497 | one command: zone, address, buffer part; the slot's address advances and its sectors shrink |
| `WritePath.Round` | xztl/src/ztl-io.c:459-498 | one pass over the slots makes the next min(naddr, left) commands in order |
| `WritePath.Populate` | xztl/src/ztl-io.c:447-499 | the round robin makes command `c` for unit `start + c`, zone `(start+c) % 64`, level `(start+c) / 64`, and lists each slot's commands as k, k+64, k+128, ... |
| `WritePath.CommandPlaces` | xztl/src/ztl-io.c:464-497 | the commands in numbers: part `c` goes to zone `(start+c) mod 64`, 8 sectors at height `(start+c) div 64` |
| `ReadPath.PlanRead` | xztl/src/ztl-io.c:236-306 | for every offset and size: copy ranges adjacent from 0 to the size, no command crosses an 8-sector unit, every command fetches the bytes its buffer range stands for, one command per touched unit |
| `ReadPath.PlanLoop` | xztl/src/ztl-io.c:263-306 | the planning loop from any consistent cursor |
| `ReadPath.PieceReadCommands` | xztl/src/ztl-io.c:263-306 | a read inside a piece of `num` units uses at most `num` commands |
| `ReadPath.TilesCover` | xztl/src/ztl-io.c:282-288 | every byte of the buffer is copied by some command |
| `ReadPath.TilesDisjoint` | xztl/src/ztl-io.c:282-288 | no byte of the buffer is copied by two commands |
| `ReadPath.FetchIsSlice` | xztl/src/ztl-io.c:277-287 | what a planned command fetches from the striped zones is the slice of the image it stands for |
| `ReadPath.DeliveredByte` | xztl/src/ztl-io.c:125-164 | a byte whose command completed holds the image byte, whatever completes before or after |
| `ReadPath.ReadReturnsImage` | xztl/src/ztl-io.c:125-164 | a planned read returns exactly the range of the image, in any completion order |
| `ReadPath.ReadZones` | xztl/src/ztl-io.c:221-354 | plan and completions together return `img[offset..offset+size]` |
| `Agreement.WriterReaderAgree` | xztl/src/ztl-io.c:277-278 | the planned read of a unit goes to the zone and into the 8 sectors of the write command that filled it, although the two are computed independently |
| `Agreement.ProtocolIssuesCommands` | xztl/src/ztl-io.c:496-533 | the command a slot submits as its `index`-th is command `64*index + slot`: same zone, same buffer part, and accepted by the device exactly when its address is the write pointer |
| `Agreement.WriteStripes` | xztl/src/ztl-io.c:514-555 | after any run of the protocol with no command given up the zones are the stripes of the longer image |
| `Agreement.WriteThenRead` | xztl/src/ztl-io.c:221-555 | a write completed in any order, then a read completed in any order, returns the bytes written |
| `Agreement.WriteExtends` | xztl/src/ztl-io.c:514-555 | in every state of every write, failures included, each zone still begins with the stripe of the old image |
| `Agreement.ReadDuringWrite` | xztl/src/ztl-io.c:125-164 | a read of data written before returns it in every completion order, each of its commands meeting any state of a write to the same node |
| `Submission.ChunkInFinal` | xztl/src/ztl-io.c:487-488 | the buffer part of a command is what belongs at its address in the final zone |
| `Submission.StepInv` | xztl/src/ztl-io.c:166-205 | submission, completion, retry and giving up keep: one command in flight per zone, every command counted once, pointers released exactly when the last is counted, zones a prefix of their final contents |
| `Submission.AtWritePointer` | xztl/src/ztl-io.c:181-199 | a command in flight is at its zone's write pointer exactly when its slot never gave a command up |
| `Submission.Progress` | xztl/src/ztl-io.c:514-555 | until all commands are counted some step is enabled, and while nothing failed that step is a submission or a successful completion; only a slot that already gave a command up needs retrying |
| `Submission.StepWork` | xztl/src/ztl-io.c:166-205 | every step lowers a measure |
| `Submission.RunSafe` | xztl/src/ztl-io.c:506-555 | every state of every run satisfies the invariant, and a run has at most four steps per command |
| `Submission.RunWritePointer` | xztl/src/ztl-io.c:514-533 | in every run a command is sent at its zone's write pointer exactly as long as no command of that zone was given up, and no zone has two in flight |
| `Submission.Outcome` | xztl/src/ztl-io.c:194-204 | when all are counted: nothing in flight, released exactly once, and the zones hold the new image exactly when no command failed for good |
| `Submission.RunWritesImage` | xztl/src/ztl-io.c:506-555 | a run that ends without failure turned the stripes of `img` into those of `img + data` |
| `Submission.ThreeTries` | xztl/src/ztl-io.c:181-199 | a command may fail twice and is still tried, with nothing lost; the third failure gives it up |
| `Submission.RunFailures` | xztl/src/ztl-io.c:181-199 | over every run a command is given up at its third failure and at no other |
| `Submission.FailedIff` | xztl/src/ztl-io.c:181-204 | a write is marked failed exactly when some command failed three times |
| `Submission.TwoFailuresHarmless` | xztl/src/ztl-io.c:181-204 | a run in which no command fails three times ends with the new image on the zones |
| `NodeGroup.GetNodeInv` | xztl/src/ztl-pro-grp.c:140-176 | keeps the group invariant; fails exactly when the level has no room and no node is free; otherwise the level holds a node with room |
| `NodeGroup.WritePieceInv` | xztl/src/ztl-io.c:427-563 | the new piece starts at the node's used count, does not overlap any live piece, and the invariant (counts, lists, bytes of all live pieces) holds for it too |
| `NodeGroup.TrimInv` | xztl/zrocks/src/zrocks.c:209-235 | trimming a live piece never underflows `nr_valid` and keeps the invariant for the rest |
| `NodeGroup.ResetOnFullInv` | xztl/src/ztl-mgmt-cmd.c:84-119 | resetting a node on the full list destroys no live piece |
| `NodeGroup.ResetSafeIff` | xztl/src/ztl-mgmt-cmd.c:101-115 | a requested reset keeps the invariant exactly when the node has reached the full list |
| `NodeGroup.EarlyResetSharesNode` | xztl/src/ztl-io.c:561-563 | a reset while a level still holds the node: the next level that asks is given the same node |
| `NodeGroup.HeldResetReachable` | xztl/src/ztl-io.c:561-563 | the hypotheses of `EarlyResetSharesNode` are met at the end of a run of 192 full buffers to one node, each trimmed after it was written: the node waits for its reset while the level holds it |
| `NodeGroup.FreshInv` | xztl/src/ztl-pro-grp.c:178-242 | an erased group of any size satisfies the invariant runs begin with |
| `NodeGroup.StepInv` | xztl/src/ztl-pro-grp.c:140-176 | every step of every level, user and the management thread keeps the invariant |
| `NodeGroup.RunInv` | xztl/src/ztl-pro-grp.c:140-176 | in every run: free, used and full lists disjoint and covering, `nfree` the length of the free list, left + used the capacity, levels on different nodes, `nr_valid` the live units |
| `NodeGroup.RunLevels` | xztl/src/ztl-io.c:430-431 | over every run from an erased group a node that a level holds and has written to has that level |
| `NodeGroup.WriterLevel` | xztl/src/ztl-io.c:430-431 | the level of a node, on the full list too, is that of every level that wrote to it since its last reset |
| `NodeGroup.RunKeepsPiece` | xztl/zrocks/src/zrocks.c:209-235 | a piece stays live until the step that trims it |
| `NodeGroup.BytesKeptIff` | xztl/src/ztl-mgmt-cmd.c:84-119 | over every run, a piece live at one step keeps its bytes on the device through a later one, trimmed or not, exactly when its node is not recycled between |
| `NodeGroup.InvReadsBack` | xztl/src/ztl-io.c:221-306 | every live piece reads back its bytes, for every sub-range, plan and completion order |
| `NodeGroup.WrittenPieceReadsBack` | xztl/src/ztl-io.c:373-571 | over every run, a piece written and not trimmed since still reads back exactly the bytes written |
| `Tailq.InitLinked` | xztl/src/ztl-pro-grp.c:61-63 | the three initialised lists are empty and in order |
| `Tailq.InsertWhole` | xztl/src/ztl-pro-grp.c:218-234 | insertion at a right tail pointer appends the node to the list |
| `Tailq.InsertOther` | xztl/src/ztl-pro-grp.c:218-234 | and leaves the nodes, order and tail of every other list |
| `Tailq.RemoveChained` | xztl/src/ztl-mgmt-cmd.c:107-109 | removal through any head takes the node out of the list it is on, which stays readable; if the node was last, the tail pointer of the named head moves |
| `Tailq.RemoveWholeIff` | xztl/src/ztl-mgmt-cmd.c:107-109 | the list is in order afterwards exactly when the right head was named or the node had a successor |
| `Tailq.MoveLinked` | xztl/src/ztl-pro-grp.c:143-170 | unlinked through the right head a node moves from one list to the tail of another, and all three stay in order |
| `Tailq.RetireLinks` | xztl/src/ztl-pro-grp.c:143-151 | retiring a node does to the pointers what it does to the lists |
| `Tailq.TakeLinks` | xztl/src/ztl-pro-grp.c:154-170 | the first link of the free list is its head, and taking it does to the pointers what it does to the lists |
| `Tailq.ResetMove` | xztl/src/ztl-mgmt-cmd.c:107-114 | a reset, which always names the full list, keeps all lists in order exactly when the node is not the last of the used list; otherwise they stay readable with a stale tail |
| `Tailq.ResetLinks` | xztl/src/ztl-mgmt-cmd.c:107-114 | the same for the lists of a group |
| `Tailq.StaleTailSharesNode` | xztl/src/ztl-pro-grp.c:154-170 | what a stale tail does: with one other node free, the next three levels are given that node, the reset node, and that node again |
| `Zrocks.Ztl.Obtain` | xztl/src/ztl-pro-grp.c:140-176 | the pointer manipulation of get_node is the step of the model; keeps the invariant and the pointers behind the lists |
| `Zrocks.Ztl.PutPiece` | xztl/src/ztl-io.c:427-563 | the piece of a write and the counters after it; the live pieces grow by exactly that piece |
| `Zrocks.Ztl.PutSome` | xztl/src/ztl-io.c:421-567 | one round of `reget`: the piece holds the next bytes of the buffer, space shrinks by its units, and a short piece leaves the level without room |
| `Zrocks.Ztl.WriteUcmd` | xztl/src/ztl-io.c:420-571 | at most two pieces, in buffer order; the buffer is written exactly when the level has space for it |
| `Zrocks.Ztl.Write` | xztl/zrocks/src/zrocks.c:63-127 | pieces hold the buffer less the padding of the last exactly when there was space, strictly less of it otherwise; every field fits its bits with at most 2^14 nodes |
| `Zrocks.Ztl.Read` | xztl/zrocks/src/zrocks.c:147-201 | returns the range of the node image |
| `Zrocks.Ztl.TrimPiece` | xztl/zrocks/src/zrocks.c:209-235 | the trimmed piece is the only one that stops being live |
| `Zrocks.Ztl.Recycle` | xztl/src/ztl-mgmt-cmd.c:84-119 | the group and its pointers are in order after a requested reset exactly when the node had reached the full list; no live piece is taken off the books |
| `Zrocks.GetNodeSpace` | xztl/src/ztl-pro-grp.c:140-176 | obtaining a node neither creates nor loses space, and succeeds exactly when there is some |
| `Zrocks.PiecesHold` | xztl/zrocks/src/zrocks.c:103-113 | the pieces of a write hold its units in order, less the padding of the last |
| `FileLayer.FindPiece` | env/env_zns_io.cc:197-206 | finds the piece holding the offset, or that there is none |
| `FileLayer.ReadPart` | env/env_zns_io.cc:220-236 | the read of one piece returns the file bytes at that position |
| `FileLayer.ReadFrom` | env/env_zns_io.cc:217-242 | the loop over pieces returns the range, or runs past the last piece |
| `FileLayer.ReadPieces` | env/env_zns_io.cc:172-246 | a range inside the pieces comes back exactly; a range running past them indexes out of range; one beginning past them is an error |
| `FileLayer.KeptPayloads` | env/env_zns_io.cc:489-549 | steps that keep a file's pieces live keep its bytes |
| `FileLayer.ZnsFile.Fill` | env/env_zns_io.cc:421-422 | copying into the cache extends the content by the data |
| `FileLayer.ZnsFile.Flush` | env/env_zns_io.cc:505-547 | the cache becomes pieces with the same bytes exactly when there is space |
| `FileLayer.ZnsFile.Sync` | env/env_zns_io.cc:489-549 | content unchanged exactly when the level has space for the cache |
| `FileLayer.ZnsFile.Spill` | env/env_zns_io.cc:398-407 | fill to the brim and sync |
| `FileLayer.ZnsFile.SpillWhole` | env/env_zns_io.cc:409-418 | the loop over whole buffers |
| `FileLayer.ZnsFile.Append` | env/env_zns_io.cc:376-428 | the content grows by the data exactly when there is space for the full buffers synced on the way; a closed file refuses |
| `FileLayer.BufferSplit` | env/env_zns_io.cc:388-422 | what passes through the cache is full buffers of 32 MiB and a rest that is empty only if nothing came: a full cache is synced when the next byte comes |
| `FileLayer.BufferSize` | env/env_zns_io.cc:388-390 | buffers are 32 MiB, which is 1024 units, and sizes have 64 bits |
| `FileLayer.ZnsFile.Truncate` | env/env_zns_io.cc:444-464 | takes effect exactly when the 64-bit difference of the sizes is at most the cached bytes: a cut inside the cache, or an extension so large that the difference wraps; otherwise nothing changes |
| `FileLayer.ZnsFile.Close` | env/env_zns_io.cc:466-479 | the cache is gone; the content survives exactly when the level had space for it, and is strictly shorter otherwise |
| `FileLayer.ZnsFile.Read` | env/env_zns_io.cc:248-289 | which of data, untouched buffer, error and out-of-range index a read ends in, for every size and content, files with payload beyond their size included |
| `FileLayer.SequentialFile.Read` | env/env_zns_io.cc:23-118 | the same outcome from the current position, which moves by what was read |
| `FileLayer.ReadWhole` | env/env_zns_io.cc:248-289 | with `size` the length of the content a read is the clipped slice, except for a range that begins in the pieces and ends in the cache |
| `FileLayer.ReadClosed` | env/env_zns_io.cc:248-289 | without a cache a read is the clipped slice whenever the pieces hold at least `size` bytes; a file cut short by lack of space gives an error or an out-of-range index |
| `FileLayer.Run` | env/env_zns_io.cc:376-549 | under any run of Append, Sync and Truncate, pieces without padding followed by the cache are the content of a plain byte sequence |
| `FileLayer.RunCloseRead` | env/env_zns_io.cc:248-289 | after any run and Close, Read returns exactly the clipped slice for every offset and length |
| `Gc.OffsetKeptIff` | env/env_zns.cc:934-949 | a piece keeps its offset in the file exactly when no migrated piece before it is padded |
| `Gc.PrefixPreserved` | env/env_zns.cc:934-949 | with padding only in the last piece the old bytes are a prefix of the migrated ones |
| `Gc.PaddingShifts` | env/env_zns.cc:934-949 | the failing input: with a padded victim piece before the last, the first byte of the next piece is displaced by a padding byte |
| `Gc.CopyOne` | env/env_zns.cc:934-949 | a piece is copied whole, padding included, to nodes that were not full |
| `Gc.CopyVictims` | env/env_zns.cc:925-978 | the copying loop: bytes and order kept, nothing left in the victim, counts of the other nodes follow |
| `Gc.TrimVictims` | env/env_zns.cc:990-995 | of the live pieces exactly those behind the file's pieces in the victim stop being live; all others stay |
| `Gc.Move` | env/env_zns.cc:925-996 | units move from the victim to the new nodes, none created or lost; of the pieces live before exactly the file's pieces in the victim are given up |
| `Gc.Migrate` | env/env_zns.cc:884-999 | the file keeps its bytes and order, no piece of it stays in the victim, every node's count follows, and every live piece other than the file's in the victim stays live |
| `Gc.MigrateThenRead` | env/env_zns.cc:884-999 | a read after a migration returns the old clipped slice for every offset and length, although the last piece gained its padding |
| `Gc.TrimmedUnits` | env/env_zns.cc:976-987 | trimming through pointers into the reused array takes each slot's last value once per use |
| `Gc.DeletedWhileMigratingIff` | env/env_zns.cc:976-987 | the units copied for a file deleted meanwhile are given back exactly when, on every node, they add up to the last value of each slot of the reused array times its number of uses |
| `Gc.OneMigratedPiece` | env/env_zns.cc:976-987 | one migrated piece always comes back |
| `Gc.EvenPiecesReturn` | env/env_zns.cc:976-987 | two pieces of one size on one node come back too |
| `Gc.UnevenPiecesLeak` | env/env_zns.cc:976-987 | two pieces of different sizes on one node do not: the second is given back twice |
| `MetaCodec.DecEncIff` | env/env_zns.cc:35-59 | an integer survives its field exactly when it fits |
| `MetaCodec.UnpackPack` | xztl/zrocks/include/libzrocks.h:46-64 | the bit fields of a mapping entry do not overlap |
| `MetaCodec.PiecesRoundTrip` | env/env_zns.cc:634-639 | encoded mapping entries decode to themselves, whatever follows |
| `MetaCodec.NameRoundTripIff` | env/env_zns.cc:49 | a name survives exactly when it has no NUL |
| `MetaCodec.FileRoundTrip` | env/env_zns.cc:613-650 | decoding an encoded file gives it back and consumes exactly its bytes, whatever the struct padding holds |
| `MetaCodec.FileNameRoundTripIff` | env/env_zns.cc:613-624 | of a fitting file only a NUL in the name is lost |
| `MetaCodec.FilesRoundTrip` | env/env_zns.cc:757-765 | the file loop of a Base record, each file with struct padding of its own |
| `MetaCodec.BodyRoundTrip` | env/env_zns.cc:756-785 | each of the five records decodes to itself behind its head |
| `MetaCodec.SectorsOk` | env/env_zns.cc:345-352 | the written length of a record is its sector count |
| `MetaCodec.ZoneHeadRoundTripIff` | env/env_zns.cc:319-321 | the zone head gives back its sequence number exactly when that fits 32 bits |
| `MetaCodec.RecordHead` | env/env_zns.cc:753-755 | the aligned length in the head advances the loader exactly to the next record |
| `MetaCodec.ParseFront` | env/env_zns.cc:724-755 | the loader meets the record at the front and goes on right behind it |
| `MetaCodec.ZoneRoundTrip` | env/env_zns.cc:724-785 | any zone of records with one unwritten sector left is loaded in finitely many steps, inside the zone, back to its records |
| `MetaCodec.LoadZone` | env/env_zns.cc:724-789 | the unbounded load loop ends and returns the records of the zone |
| `MetaCodec.EntryLayout` | xztl/zrocks/include/libzrocks.h:46-64 | a mapping entry has 14 bits of node, 22 of start, 11 of number and 16 of padding, from the lowest bit on |
| `MetaCodec.EntryRead` | xztl/zrocks/include/libzrocks.h:46-64 | any word is read from the same bits, the highest one ignored |
| `MetaCodec.RecordLayout` | env/env_zns.cc:345-352 | the bytes of a record by number: length at 4, kind at 8, payload at 12, zeros to the sector boundary |
| `MetaCodec.PayloadLayout` | env/env_zns.h:83-100 | the bytes of a payload by number: names of 128, files of 152 with their fields at 0, 8, 16 and 20 |
| `MetaCodec.PiecesRead` | env/env_zns.cc:634-639 | a negative number of pieces is read as none, any other as it is |
| `MetaCodec.ZoneHeadLayout` | env/env_zns.h:61-73 | a zone begins with 0x3D and has its sequence number at byte 4 |
| `MetaLog.RecordFollowsOp` | env/env_zns.cc:613-650 | replaying the record of an operation does to the replayed table what the operation did in memory |
| `MetaLog.QuietKeepsTable` | env/env_zns.cc:173-181 | creating a fresh name, growing, truncating and changing the level of a file need no record for the piece table |
| `MetaLog.RenamedExactly` | env/env_zns.cc:283-286 | which names are those of renamed files after an operation |
| `MetaLog.SnapshotReplays` | env/env_zns.cc:326-343 | a snapshot in which every file with pieces sits under its own name replays to the table it was taken of |
| `MetaLog.StepInv` | env/env_zns.cc:310-611 | change, append, zone switch and snapshot keep the log invariant; a restart keeps it if every replayed object sits under its own name |
| `MetaLog.StepSound` | env/env_zns.cc:310-611 | every step, a restart after a rename included, keeps the zones well formed and in order of their sequence |
| `MetaLog.RunSound` | env/env_zns.cc:310-611 | so do all runs, with no condition on their history |
| `MetaLog.UnrenamedNamesAgree` | env/env_zns.cc:770-778 | without a rename in the log every replayed object sits under its own name |
| `MetaLog.RunInv` | env/env_zns.cc:310-611 | every state of every run in which each restart comes with no rename in the log, or replays every object under its own name, satisfies it |
| `MetaLog.CrashConsistent` | env/env_zns.cc:686-806 | at every point of every run whose restarts come with no rename in the log or replay every object under its own name, also between switch, reset and snapshot and during recovery, the valid zone with the greatest sequence replays to the piece table just before or just after the current operation |
| `MetaLog.RestartFaithfulIff` | env/env_zns.cc:774-801 | for any restart, whatever was renamed: memory gets the table the device held, and the snapshot then taken holds it exactly when every file with pieces was replayed under its own name |
| `MetaLog.UpdateLocalIff` | env/env_zns.cc:618-646 | replaying an Update or GCChange leaves other files alone exactly when the object sits under its own name or its old name already has the pieces the record gives it |
| `MetaLog.UpdateAfterRenameDuplicates` | env/env_zns.cc:618-646 | the failing input: snapshot, rename, update leaves the pieces under both names |
| `MetaLog.RenameAgreesIff` | env/env_zns.cc:770-778 | the Replace record agrees with memory exactly when the names differ or the file has no pieces |
| `MetaLog.CreateAgreesIff` | env/env_zns.cc:173-181 | logging nothing for a created file is right exactly when the name had no pieces |
| `MetaLog.SnapshotFaithfulIff` | env/env_zns.cc:49-50 | a snapshot is faithful exactly when every file with pieces is stored under its object's own name |
| `MetaLog.RenameUndoneByRestarts` | env/env_zns.cc:774-778 | a rename replayed at one restart is undone at the next |
| `MetaLog.ValidZonesLoad` | xztl/src/ztl-metadata.c:229-235 | at every point of every run, with restarts of any kind, every valid zone has an unwritten sector and loads |
| `MetaEnv.MetaDevice.Init` | xztl/src/ztl-metadata.c:90-100 | the first zone that is not full becomes current |
| `MetaEnv.MetaDevice.SwitchZone` | xztl/src/ztl-metadata.c:68-80 | the other zone becomes current and is emptied |
| `MetaEnv.MetaDevice.Write` | xztl/src/ztl-metadata.c:214-272 | refuses and switches exactly when the last sector would be reached; otherwise the zone grows by exactly the buffer |
| `MetaEnv.MetaDevice.WriteSnapshot` | env/env_zns.cc:355-359 | the repeated write of a snapshot; one too large for a zone empties both |
| `MetaEnv.MetaDevice.Read` | xztl/src/ztl-metadata.c:164-212 | the chunked read returns the range of the zone |
| `MetaEnv.MetaZoneSize` | xztl/src/ztl-metadata.c:229-235 | a metadata zone is 96 MiB |
| `MetaEnv.ZnsEnv.FlushMetaData` | env/env_zns.cc:310-370 | the device bytes after the flush are those of the log after a snapshot step, for any table in memory |
| `MetaEnv.ZnsEnv.FlushRecord` | env/env_zns.cc:419-429 | the device bytes after the flush are those of the log after an append, or, when the zone is full and the snapshot fits the other, a switch and a snapshot |
| `MetaEnv.ZnsEnv.Perform` | env/env_zns.cc:204-220 | after Delete, Rename, Sync or Migrate memory has the new table, and if the log invariant held the device recovers to it too and the invariant holds again |
| `MetaEnv.ZnsEnv.PerformQuiet` | env/env_zns.cc:173-181 | operations without a record change memory only and keep the log invariant |
| `MetaEnv.ZnsEnv.BestZone` | env/env_zns.cc:704-722 | the search finds the valid zone with the greatest sequence |
| `MetaEnv.ReplayAll` | env/env_zns.cc:756-785 | record by record replay |
| `MetaEnv.ZnsEnv.Replayed` | env/env_zns.cc:704-789 | reading the device bytes and replaying them gives the table the log recovers to |
| `MetaEnv.ZnsEnv.LoadMetaData` | env/env_zns.cc:686-806 | from the device bytes at any crash point of any run: memory gets the recovered table; the fresh snapshot on the other zone agrees with it exactly when every file with pieces was replayed under its own name; the invariant holds again when all objects were |
| `Recovery.RebuiltFromBalanced` | xztl/src/ztl-pro-grp.c:207-240 | from any balanced report a node gets back its used and left units and its status |
| `Recovery.PointersAgreeIff` | xztl/src/ztl-pro-grp.c:320 | the next writer's addresses are those the reader computes exactly when the write pointers are balanced |
| `Recovery.ClosedWhenAvailable` | xztl/src/ztl-pro-grp.c:207-242 | all nodes are closed exactly when the zones do not come out even |
| `Recovery.CloseNode` | xztl/src/ztl-pro-grp.c:208-237 | the node is rebuilt and inserted into the list of its status; lists and pointers stay in order |
| `Recovery.CloseIfComplete` | xztl/src/ztl-pro-grp.c:208-250 | a node is closed at its 64th zone, and the loop stops when no further node fits |
| `Recovery.NodeInit` | xztl/src/ztl-pro-grp.c:178-322 | every closed node is rebuilt from its 64 zones and listed; zones are stored past the node table exactly when 63 zones are left over or there is no node at all |
| `Recovery.SetNode` | xztl/src/ztl-io.c:649-659 | one recovered piece: the count grows, and a node still being written becomes the level's; a store before the queue array is reported exactly for a negative level on a used node |
| `Recovery.SetFile` | env/env_zns.cc:667-672 | the pieces of one file, and whether any of them strays |
| `Recovery.SetNodesInfo` | env/env_zns.cc:660-674 | all recovered files, in table order; a stray store is reported exactly when a file of negative level has a piece on a used node |
| `Recovery.SetsValid` | xztl/src/ztl-io.c:649-653 | `nr_valid` of every node is the number of recovered units |
| `Recovery.SetsFullLevel` | xztl/src/ztl-io.c:654-658 | full nodes come out of start-up without a level |
| `Recovery.SetsLevel` | xztl/src/ztl-io.c:654-658 | an open node gets the level of the last file with a piece there, cut at 4; any other node keeps its own |
| `Recovery.ContinuedLevel` | xztl/src/ztl-io.c:654-658 | with files that agree on the level of each node they share, a level that continues on a node is the node's |
| `Recovery.ClearInvalid` | xztl/src/ztl-mgmt-cmd.c:121-131 | exactly the nodes without valid units that are not free become fresh; the lists stay readable, and their pointers are in order exactly when the last node of the used list was not one of them |
| `Recovery.ClearsExactly` | xztl/src/ztl-mgmt-cmd.c:121-131 | the same of the loop after any number of nodes |
| `Recovery.ClearsLists` | xztl/src/ztl-mgmt-cmd.c:84-131 | the cleared nodes, and no others, leave the used or full list for the free list |
| `Recovery.ClearOne` | xztl/src/ztl-mgmt-cmd.c:121-131 | one node, unlinked through the head of the full list whatever list it is on |
| `Recovery.LastKept` | xztl/src/ztl-mgmt-cmd.c:121-131 | until its turn comes the last node of the used list stays the last |
| `Recovery.LastIdleIff` | xztl/src/ztl-mgmt-cmd.c:121-131 | that node is cleared exactly when no recovered file has a piece in the last node that is neither empty nor full |
| `Recovery.StaleTailReachable` | xztl/src/ztl-mgmt-cmd.c:121-131 | the failing input: a device with one unit written that no file owns |
| `Recovery.RecoveredInvIff` | xztl/src/ztl-io.c:649-659 | start-up re-establishes the invariant of the running group exactly when no two levels continue on one node |
| `Recovery.OneLevelPerNode` | xztl/src/ztl-io.c:654-658 | files that agree on the level of each open node keep the levels apart |
| `Recovery.LevelsShareNode` | xztl/src/ztl-io.c:654-658 | two levels with pieces in one open node both continue on it |
| `Recovery.ClearKeepsRecovered` | xztl/src/ztl-mgmt-cmd.c:121-131 | clearing never resets a node that holds a recovered piece |
| `Recovery.StartUp` | env/env_zns.cc:792-799 | init, SetNodesInfo and clearing together: every piece of the recovered files reads back; the invariant holds exactly when no two levels continue on one node, the pointers are in order exactly when the last open node holds a recovered piece, and both out-of-bounds stores are reported exactly |
| `Recovery.SetAndClear` | env/env_zns.cc:792-799 | start-up once the node table is there |
| `Recovery.StartUpOrder` | env/env_zns.cc:792-799 | clearing neither helps nor harms the levels, and takes no recovered piece |
| `Recovery.BackedRecoverable` | env/env_zns.cc:792-799 | files whose pieces lie apart on the device with their bytes are recoverable |
| `Crash.RebuiltCount` | xztl/src/ztl-pro-grp.c:207-240 | init counts the units of the image and of every completed command, torn write or not |
| `Crash.InOrderIff` | xztl/src/ztl-io.c:166-205 | commands completed in order exactly when every slot completed its share of their number |
| `Crash.RestartAgreesIff` | xztl/src/ztl-pro-grp.c:207-320 | after a crash at any state of any write, the next writer and the reader agree on all addresses of the rebuilt node exactly when no command completed before an earlier one |
| `Crash.TornWriteReachable` | xztl/src/ztl-io.c:514-555 | the failing state is reached by a run of two steps |
| `Crash.FindableIff` | xztl/src/ztl-mgmt-cmd.c:84-119 | pieces live at one point of a run are all found, with their bytes, by a start-up at every point up to a later one exactly when none of their nodes is recycled between |
| `Crash.CrashInsideOperationIff` | env/env_zns.cc:990-998 | power lost after the change of a Delete, Rename, Sync or Migrate and before its record: the log gives the table before, and start-up finds all its pieces exactly when no node of theirs was recycled in that window |
| `Crash.RecycledBeforeLogged` | env/env_zns.cc:212-221 | the window is real: from any state with a full node whose only live piece is trimmed, a run of two steps loses its bytes |
| `Fleet.OnFile` | env/env_zns_io.cc:376-549 | an operation on one file of a shared group refines the byte sequence, adds pieces only, and leaves a closed file alone |
| `Fleet.MoveFile` | env/env_zns.cc:884-999 | a file being written is left alone; any other becomes its own units with the padding of the victim pieces as data, of which the old bytes are a prefix when only the last piece is padded |
| `Fleet.TrimAll` | env/env_zns.cc:212-216 | the trimming loop of DeleteFile gives back every unit of the pieces and no other |
| `Fleet.Delete` | env/env_zns.cc:211-219 | a deleted file is empty, and the counts of the nodes go down by its units |
| `Fleet.Create` | env/env_zns.cc:173-181 | the file at the name is replaced by an empty one |
| `Fleet.Forget` | env/env_zns.cc:283-286 | the file whose name a rename takes is dropped; the renamed file is untouched |
| `Fleet.CreatedTakesAppends` | env/env_zns.cc:173-181 | a file just created takes what is appended, and nothing of what was there before |
| `Fleet.ClosedRefuses` | env/env_zns_io.cc:384-386 | a deleted, replaced or closed file takes nothing; the first two have nothing to read |
| `Fleet.OthersKept` | env/env_zns.cc:990-995 | a step gives up no piece of a file that shares no place with its own |
| `Fleet.StayApart` | xztl/src/ztl-io.c:427-563 | new pieces share no place with those of other files |
| `Fleet.StepFile` | env/env_zns.cc:884-999 | one operation on one of several files: its file follows the operation, every other file keeps content, size, state and units, and no two files share a place |
| `Fleet.StepNode` | xztl/src/ztl-mgmt-cmd.c:84-119 | a reset changes no file |
| `Fleet.Step` | env/env_zns.cc:884-999 | either of the two, and the valid count of every node follows the pieces of all files |
| `Fleet.RunAll` | env/env_zns_io.cc:376-549 | any run of creations, renames, appends, syncs, truncations, closes, migrations, deletions and resets over several files is a trace of such steps, up to the first operation that lacks what the code relies on |
| `Fleet.UntouchedFile` | env/env_zns.cc:884-999 | over every trace a file is the same at two points if no operation between was for it |
| `Fleet.ExcessIsForgotten` | env/env_zns.cc:175-178 | over every trace the valid count of a node exceeds the units of the files there by exactly the units of files created over or renamed onto |
| `Fleet.CountsMatchIff` | env/env_zns.cc:175-178 | valid counts equal the units of the files at the end of a run exactly when no file with pieces was created over or renamed onto |
| `Fleet.ForgottenNodeStays` | env/env_zns.cc:285 | a node with forgotten units is never recycled |
| `Fleet.CollectedUnits` | env/env_zns.cc:884-912 | the calls for one victim leave no unit of a closed file they reach there, and all units of any other |
| `Fleet.CollectEmptiesIff` | env/env_zns.cc:871-878 | collecting a victim brings its count to zero exactly when every file with a unit there is closed and has a name that is listed under the victim |
| `Fleet.RenamedFileStays` | env/env_zns.cc:871-878 | a file listed under its old name only, or under none after a restart, keeps the victim from being reset |
| `Fleet.Collect` | env/env_zns.cc:871-878 | the same of the loop over the names, as far as the migrations find space |
| `Durable.MutateSettled` | env/env_zns_io.cc:421-425 | after every operation each byte a file counts is in a piece or in its cache |
| `Durable.CutFollowsTruncate` | env/env_zns_io.cc:452-461 | a Truncate in the table has the size and cache of the Truncate of the byte sequence |
| `Durable.GrowFollowsAppend` | env/env_zns_io.cc:421-425 | the end of an Append in the table has those of the Append of the byte sequence, and no other cache is allowed |
| `Durable.SyncFollows` | env/env_zns_io.cc:519-547 | a Sync in the table has those of the Sync, with the new pieces behind the old |
| `Durable.MigrateKeeps` | env/env_zns.cc:996 | a migration in the table changes the pieces only |
| `Durable.LevelReplays` | env/env_zns_io.cc:568 | the level a writer sets is the one the next record gives the file |
| `Durable.CreatedReplays` | env/env_zns.cc:180 | a file created and synced replays at level 0 with the pieces written |
| `Durable.RecordMirrors` | env/env_zns.cc:613-650 | a record gives the replayed table the size, level and pieces the file has in memory |
| `Durable.SnapshotMirrors` | env/env_zns.cc:326-341 | so does a snapshot, for every file |
| `Durable.StepSeen` | env/env_zns.cc:310-611 | change, append, zone switch, snapshot and restart keep that correspondence |
| `Durable.RunSeen` | env/env_zns.cc:310-611 | it holds in every state of every run with clean restarts |
| `Durable.RecoveredWholeIff` | env/env_zns.cc:34-59 | at every point of every such run a recovered file has the size, level and pieces of its last record, and its pieces hold its whole size exactly when none of its bytes was only cached then and no earlier crash had torn it |
| `Durable.RecoveredReadableIff` | env/env_zns_io.cc:30-100 | every read inside the size of the recovered file succeeds exactly under the same condition |
| `Durable.TornRun` | env/env_zns_io.cc:220 | a torn file stays short, through snapshots, migrations and restarts, until it is deleted, replaced or renamed, or a migration copies enough padding to make up its length |
| `Durable.CachedBytesLost` | env/env_zns.cc:326-341 | the failing run: a file with cached bytes is in a snapshot that another file's record causes, and recovers with its size and no byte |
| `Whole.NodeGood` | xztl/src/ztl-io.c:427-563 | writes, trims and resets keep every recoverable file on the device with its bytes, unless a reset comes between a trim and its record |
| `Whole.LogGood` | env/env_zns.cc:310-611 | so do the steps of the log, and what is in memory becomes recoverable with its record |
| `Whole.RecordBytes` | env/env_zns.cc:613-650 | the bytes a record stands for are those of the table it leads to |
| `Whole.RestartGood` | env/env_zns.cc:792-801 | so does a restart |
| `Whole.RunGood` | env/env_zns.cc:310-611 | all of it holds in every state of every run of nodes, log and restarts together, up to the first reset between a trim and its record |
| `Whole.CrashReadsRecorded` | env/env_zns.cc:686-806 | power lost at any point of any such run in which no node was reset between the trim of a piece and the record of its loss: every file the log gives back has the bytes it had at its last record, and a read returns them as far as its size says |
| `Whole.EarlyResetLosesIff` | env/env_zns.cc:990-998 | the condition is exact: a reset takes bytes of a file that would be recovered exactly when it comes between the trim of one of its pieces and the record |
| `Whole.RestartPossible` | env/env_zns.cc:792-801 | at every such point start-up finds the pieces of all recovered files, with their bytes and apart; it goes on exactly when levels do not share a node, the last open node is not empty and no object was replayed under another name |
| `Whole.Components` | env/env_zns.cc:686-806 | every step of the machine is one of the log, of the nodes, or a restart of both |
| `Whole.LogOfRun` | env/env_zns.cc:310-611 | the log of a run of the machine is a run of the log with clean restarts |
| `Whole.CondemnedTrims` | env/env_zns.cc:990-995 | an operation can trim every piece it gives up |
| `MapCache.EvictView` | xztl/src/ztl-map.c:67-94 | an eviction forgets exactly the entries of the evicted page |
| `MapCache.LoadView` | xztl/src/ztl-map.c:96-170 | loading a page changes no mapping |
| `MapCache.StoredAt` | xztl/src/ztl-map.c:379-420 | no two pages share a buffer, so a store reaches one id only |
| `MapCache.NeverEvicts` | xztl/src/ztl-map.c:104-118 | with no more pages than buffers an uncached page always finds a free buffer |
| `MapCache.Cache.constructor` | xztl/src/ztl-map.c:172-227 | all buffers free, the map empty |
| `MapCache.Cache.Evict` | xztl/src/ztl-map.c:67-94 | drops the least recently used page; free plus used stays constant; fails only without used buffers |
| `MapCache.Cache.LoadFree` | xztl/src/ztl-map.c:120-170 | the page takes the head of the free list and becomes the most recent; the map is unchanged |
| `MapCache.EvictedReused` | xztl/src/ztl-map.c:67-170 | the buffer of an evicted page is the one the next page is loaded into |
| `MapCache.Cache.GetEntry` | xztl/src/ztl-map.c:313-373 | the page is cached and most recent afterwards; nothing is forgotten with no more pages than buffers |
| `MapCache.Cache.Upsert` | xztl/src/ztl-map.c:379-420 | compare-and-set on the plain id-to-value map; returns the prior value |
| `MapCache.Cache.Read` | xztl/src/ztl-map.c:422-449 | the low 40 bits of the plain map's value; the map is unchanged |
| `MapCache.StoreAndRead` | xztl/src/ztl-map.c:379-449 | what is stored is what is read exactly when it is below 2^40 |
| `MapCache.NewMap` | xztl/include/xztl-mods.h:35 | 256 pages and 8192 buffers: the condition for never forgetting holds |
| `Mempool.NeverWraps` | xztl/src/xztl-mempool.c:174-203 | no 16-bit counter wraps below 65538 entries |
| `Mempool.StepInv` | xztl/src/xztl-mempool.c:162-232 | every access to a shared counter by getter or putter keeps the invariant |
| `Mempool.RunSafe` | xztl/src/xztl-mempool.c:162-232 | in every interleaving: list length at least entries minus out_count, every removal sees three entries, no entry lost or duplicated, no counter wraps |
| `Mempool.GetFinds` | xztl/src/xztl-mempool.c:174-181 | with three entries in the list, put back or not, a get comes to its removal by at most six steps of its own |
| `Mempool.SwapEnds` | xztl/src/xztl-mempool.c:177-180 | a get in its recount ends the round by its own steps, whatever was put meanwhile |
| `Mempool.PutEnds` | xztl/src/xztl-mempool.c:227-230 | a put counts its entry, once, by its own steps |
| `Mempool.PutBehind` | xztl/src/xztl-mempool.c:221 | a put goes behind everything in the list and does not touch the entry a get removes |
| `Mempool.LargestPoolUnsafe` | xztl/include/xztl-mempool.h:29 | with 65538 entries a run of gets removes with two entries left |
| `Mempool.SafeIff` | xztl/src/xztl-mempool.c:85-90 | of the sizes the pool accepts exactly the largest is unsafe |
| `RwLock.StepInv` | env/env_zns.h:167-192 | every step of every thread keeps the lock invariant |
| `RwLock.ReadersProtected` | env/env_zns.h:167-192 | in every run, for any number of threads: past its wait the writer is alone, and a reader's copy is the file's map and holds no piece garbage collection trimmed |
| `RwLock.RunThreads` | env/env_zns.h:167-192 | a run has all its threads, and they begin outside |
| `RwLock.WaitEnds` | env/env_zns.h:183-187 | a waiting writer can pass or some counted reader can step |
| `RwLock.MapFollows` | env/env_zns.cc:989-996 | in every run the map is the first pieces and those migrations brought in, less those they trimmed |
| `RwLock.StepAdvances` | env/env_zns.h:167-192 | every step but the entering ones and the trims brings its thread closer to the outside |
| `RwLock.ReaderPasses` | env/env_zns_io.cc:190-195 | an undisturbed reader locks, copies the whole map and leaves everything as it was |

## Left out

- Zrocks.Ztl.PutPiece: does not repeat the submission of the commands; `Submission` and `Agreement` prove what happens between choosing the place and updating the counters.
- MetaEnv.ZnsEnv.Perform: record writes are atomic, so a Base record of more than 64 sectors, which the device receives in chunks, is not torn in the model.
- MetaLog.RecordFollowsOp: replayed objects are values; two keys that share one object after a Replace and an Update are not aliased.
- RwLock.ReadersProtected: covers the trims of garbage collection only; DeleteFile trims and frees the file without the write lock.
- MetaCodec.FilesRoundTrip: tables of 65536 files or more, where the 16-bit loop counter of the loader does not end, are outside `RecordOk`.
- Recovery.StartUp: assumes a balanced zone report, since a torn node has no image; `Crash.RestartAgreesIff` says when reports are balanced, and `Agreement.WriteExtends` that older data survives a torn write.
- MapCache.Cache.GetEntry: ids beyond the 256 pages; the page table returns a pointer for every index and checks none (xztl/src/ztl-mpe.c), so the out-of-bounds branch of the caller is never taken and such an id reads memory outside the table.
- MapCache.Cache.Upsert: the same ids.
- MapCache.Cache.Read: the same ids.
- Durable.RecoveredWholeIff: a snapshot that another thread takes in the middle of an Append or while a Sync runs out of space, and the wrapping Truncate of `FileLayer.ZnsFile.Truncate`, are not steps of the log.
- Whole.CrashReadsRecorded: a write is one step, so torn writes are left to `Crash`; runs end at a restart after which levels share a node, a tail is stale or an object was replayed under another name.
- Fleet.Collect: the names are a parameter; how the map of names grows with writes is not modelled.
- Fleet.MoveFile: a migration that runs out of space, after which the code keeps the pieces it could write; runs end there.
- MetaLog.CrashConsistent: runs that go on after a restart that replayed an object under another name, where the property can be false (`MetaLog.RenameUndoneByRestarts`); `MetaLog.RestartFaithfulIff` says what holds there.
- Update and GCChange records of more than 491 pieces: they are written from a buffer of one sector, which larger ones overrun in the code.
- A snapshot larger than the 80 MB metadata buffer, which the code refuses.
- Failed submissions, where the in-flight mark stays set; the failure path after no node is left beyond the pieces already written.
- The two lock sections of get_node as separate steps, and the queue between trim and the reset thread.
- 64-bit wrap-around of `offset + n` in reads, and 32-bit wrap-around of the sequence number beyond the stated bound.
- Retry counts of metadata reads and writes, and of reads: reads succeed in the model.
- xNVMe calls, device open, options, queue contexts, DMA buffers, module registration and the group list: wrappers.
- Statistics, logging, Prometheus, debug prints.
- Posix pass-through, prefetch, unique ids and the object interface: delegated or empty.
- The spin-locked pool build and `xztl_mempool_left`; the node-finish command; the victim sort and timing of garbage collection; thread start and stop.
