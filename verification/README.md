# PMBackend: a verified model

PMBackend is a transactional block store on persistent memory. Clients open a transaction, put and delete
fixed-size objects, commit, and execute or abort. A per-slot log makes the outcome survive a crash, interval
lists keep track of free blocks, and a pool layout places log slots, data blocks and meta blocks.

The model covers all four parts and proves what they promise together.

| file | what it holds |
|---|---|
| `Words.dfy` | machine words, little-endian fields, byte copies |
| `Ranges.dfy` | the interval list as a value: push, pop, canonical form, 64-bit arithmetic, whole runs |
| `CasLists.dfy` | the interval list as the source keeps it: a head record and heap links spliced in place |
| `Layout.dfy` | how the pool is carved, and where slots and blocks lie |
| `TxLog.dfy` | the byte form of the log: appenders, execute's cursor, the fixed stride |
| `Blocks.dfy` | object headers, checksummed ranges, what the puts write |
| `InPlace.dfy` | small updates: per-block accumulation, and the in-place path against copy-on-write |
| `SideTable.dfy` | the 128-entry list behind small updates, as loops over it |
| `Machine.dfy`, `MachineProofs.dfy` | any number of interleaved transactions as a state machine over its persistent steps, and the invariant each of its sixteen steps keeps |
| `Crash.dfy`, `CrashPoints.dfy` | the restart walk, the scan, and exactly which crashes are survived |
| `Runs.dfy` | results over whole runs with crashes: conservation, containment, isolation, write-ahead, abort as inverse, slot life cycle |
| `Paths.dfy` | puts and deletes followed through commit and execute, and the two put paths compared |
| `Limits.dfy` | where the source and its intent part, each with the runs or states that show it |
| `Api.dfy` | what put, execute and abort do as a whole |
| `Sessions.dfy` | every public call, and every sequence of calls, as a run of machine steps |
| `Memory.dfy` | the blocks as bytes of the pool: where treating them as separate is right, and the ids for which it is not |
| `Scan.dfy` | the eight-thread rebuild of the lists, a new store's lists, the iterator |
| `Pool.dfy`, `Store.dfy` | the store handle: block array, lists, slots and tables changed in place by the public calls, each proved against its effect on the machine state |

How the parts connect. `Machine.Sys.db` is auxiliary: the objects of committed transactions, read by no step.
`Machine.Inv` ties blocks, free ids, logs and slots to it; `MachineProofs.StepKeeps` shows that every step keeps
the invariant and `Runs.RunKeeps` carries it over runs that include crashes. `Store.Store.View()` is the machine
state of the imperative store; every public method states the machine state it leads to, with the effect functions
of `Sessions`. `Sessions.CallIsRun` shows that each of these effects is a run of machine steps and
`Sessions.SessionIsRun` the same for any sequence of calls, so the run theorems hold of the imperative store. The
store keeps its lists as `Ranges` values; `CasLists` proves that the heap lists compute exactly those values.

Crash points. A crash can come between any two steps of the machine. The stores the model keeps as one step are
listed under "Left out". Between the status store and the size store of begin the slot is PROCESSING over the log
of the transaction last executed there (`Machine.Tx.stale`); the status and checksum stores of commit are one step,
and a crash between them is the case of a committed slot whose test fails.

Assumptions. Writes persist in program order. The checksum of an object is any function of header fields and covered
bytes with nonzero values; about the checksum test of a log slot nothing is assumed, its outcomes (`sums`) are
quantified over, and so are the entries the fixed stride reads (`seen`). Every list operation is one atomic step, since each runs under one mutex. The machine keeps blocks
apart; `Memory.MemoryMirrors` shows that the pool does so too, over every run that leaves alone a set of ids
`Memory.ClearsExactly` describes, and `Memory.MetaPutOverwritesData` is a run that does not.

Discipline of callers, stated in `Sessions.Polite`: an object is used by one open transaction at a time; in-place
updates aim at live data blocks that the same log does not remove or replace; what is deleted exists; a log with
payloads is not aborted. The steps of `Machine.Can` also need that no id an open log names is handed out. Between calls
that follows (`Sessions.FreeNotNamed`), so nothing is asked of the allocator; inside a call of another transaction it is
an assumption, and `Limits.ReuseExact` says exactly what happens without it.

Where the code and its intent part, the model follows the code:

- Exactly which crashes the restart walk survives is `Crash.WalkExact`, and over runs `Runs.AllOrNothing`: in terms of
  what the fixed stride reads in the slots, whatever that is. `Crash.WrittenExact` breaks the condition down slot by
  slot for slots that are read as they were written. The ways in which the code falls short, each with its states or
  runs:
  - begin stores the status before the size and clearing a slot after execute keeps the size
    (`src/tx_log.c:127-128`, `src/backend.c:602-606`), so a crash in between undoes an executed transaction:
    `CrashPoints.CrashInsideBegin`;
  - the walk copies an in-place payload but never runs the metadata pass (`src/tx_log.c:497-504`):
    `Crash.PatchNeverRestored`, and as a run `Limits.PatchLostFromStart`;
  - the walk steps over the log with a fixed stride (`src/tx_log.c:468-469`), so payload bytes are read as entries:
    `Limits.PayloadReadAsNew` before commit, `Limits.PayloadReadAsObsolete` after execute;
  - it reads every in-place payload from behind the first entry of the slot (`src/tx_log.c:501`), so a small update that
    is not the first entry is redone with bytes of the log itself: `TxLog.LaterPayloadMisread`;
  - the walk tests a checksum over more bytes than commit stored (`src/tx_log.c:465` against `106`), so a committed
    slot can be judged uncommitted: `Limits.MisjudgedBeforeExecute`, `Limits.MisjudgedMidwayLosesBoth`;
  - the walk passes ids 1..count to a 0-based lookup, so it never visits the first slot (`src/tx_log.c:452-453`):
    `Limits.FirstSlotKeepsUncommitted`.
- Abort steps over the log with the same stride (`src/tx_log.c:307-308`). `TxLog.StrideAgreesExactly`: the stride stops
  at the entries execute stops at if and only if no entry has a payload. `Limits.AbortAgreesExactly`: abort still does
  what the log asks for if and only if it reads every new block of the log as new and everything else it reads as new
  is dead and free already. `Limits.AbortFreesCommitted` is a small update and an abort that free a committed block.
- A new store seeds both free lists from id 1 (`src/pmbackend.c:155-159`); `Scan.FreshLists` computes them, NULL meta list included, and
  `Scan.FirstPutsCollide` shows that its first data put and first meta put take the same block. The results over runs
  start from a store built by the reopen path, where `Scan.EmptyStoreFiled` gives region-consistent lists.
- The meta branch of `backend_direct` subtracts one too many (`src/backend.c:419`);
  `Layout.FirstMetaIdAliasesLastDataBlock`, `Memory.MetaPutOverwritesData`.
- A put's size comparison is done in 32 bits (`src/pmbackend.c:337`); `Blocks.SizeGuardExact`.
- An empty write truncates on one path and keeps the value on the other, and the in-place path ignores the key and
  object id of the call; `InPlace.PathsAgreeExactly`, `InPlace.IdentityAgreesExactly`.
- `pmb_tput` does not return its block when the append fails (`src/pmbackend.c:390-393`), `pmb_tput_meta` does;
  `Store.Store.Put` and `Store.Store.PutMeta` state both.
- `pmb_tx_execute` and `pmb_tx_abort` return the slot id even when they fail (`src/pmbackend.c:258-259`);
  `Store.Store.TxExecute` and `Store.Store.TxAbort` state it.

## Model

| member | source | states |
|---|---|---|
| `Ranges.PushInserts` | src/caslist.c:151-240 | push is set insertion (0 ignored), and ranges stay sorted with a gap of at least one between neighbours |
| `Ranges.PopTakesMinimum` | src/caslist.c:58-95 | pop fails exactly on the empty set, otherwise returns and removes the minimum; canonical form is kept |
| `Ranges.TotalCounts` | src/caslist.c:264-276 | the combined range length, which the size counter holds, is the number of ids |
| `Ranges.CanonicalUnique` | src/caslist.c:97-148 | two canonical lists with the same ids are the same range sequence |
| `Ranges.PushAllInserts` | src/caslist.c:151-240 | a sequence of pushes adds exactly its nonzero values |
| `Ranges.PushOrderIrrelevant` | src/caslist.c:169-235 | any two orders of the same pushes build the same concrete list |
| `Ranges.PushUndoesPop` | src/pmbackend.c:485-515 | giving a popped block back restores the concrete free list |
| `Ranges.PopTotal` | src/caslist.c:92 | the counter drops by one for every successful pop |
| `Ranges.PushTotal` | src/caslist.c:165-233 | the counter grows by one exactly when the pushed id is new |
| `Ranges.MachinePopExact` | src/caslist.c:71-90 | 64-bit pop equals the unbounded one if and only if the first id is not 2^64-1 |
| `Ranges.PopSound` | src/caslist.c:71-92 | with ids up to 2^64-2 pop keeps all bounds and steps the signed counter exactly |
| `Ranges.PushSound` | src/caslist.c:158-235 | with ids up to 2^64-2 push keeps all bounds and steps the signed counter exactly when the id is new |
| `Ranges.RunRefinesSet` | src/caslist.c:58-240 | over every sequence of pushes and pops the list behaves as a finite set with minimum-first removal, stays canonical, and never wraps |
| `CasLists.Put` | src/caslist.c:97-148 | the recursive put, reached only with val >= begin - 1, ends on the remaining chain, links the heap chain into Push of the old ranges, and reports whether the id is new |
| `CasLists.ExtendUp` | src/caslist.c:108-123 | growing a link by one and unlinking a neighbour it now touches is Push |
| `CasLists.AddLink` | src/caslist.c:125-144 | linking a new range behind a link, last or in between, is Push |
| `CasLists.CasList.constructor` | src/caslist.c:43-54 | a new list holds the given range, with a matching counter |
| `CasLists.CasList.PopMin` | src/caslist.c:58-95 | status, value and new heap list of pop are those of Pop, counter included |
| `CasLists.CasList.TakeFirst` | src/caslist.c:71-90 | the inline range advances, or the next link is loaded into it |
| `CasLists.CasList.PushId` | src/caslist.c:151-240 | the heap list becomes Push of its old value, counter included |
| `CasLists.CasList.Insert` | src/caslist.c:158-235 | every branch yields Push, and the counter branch is taken exactly for new ids |
| `CasLists.CasList.InsertApart` | src/caslist.c:194-235 | a value touching neither end of the inline range |
| `CasLists.CasList.InsertBefore` | src/caslist.c:199-210 | the inline range moves to a fresh link behind the new one |
| `CasLists.CasList.MergeNext` | src/caslist.c:176-192 | the inline range joins the next one when they touch |
| `CasLists.CasList.InsertBeyond` | src/caslist.c:212-235 | a value above the inline range: new last link, new middle link, or the recursive put |
| `CasLists.CasList.Size` | src/caslist.c:265-276 | the counter is the number of ids, as a signed 64-bit word |
| `CasLists.New` | src/caslist.c:38-55 | NULL exactly for a reversed range or a range from 0; otherwise exactly the ids of the range |
| `Layout.RoundUpFacts` | src/backend.c:171-173 | rounding up gives the next multiple of 4096 |
| `Layout.CarveIsCarved` | src/backend.c:248-256 | the carved pool: aligned areas in order, meta blocks ending inside the pool; how it serves the request is CarveServes and CarveFull |
| `Layout.CarveServes` | src/backend.c:171-173 | the log lies behind the requested header, and slots and blocks have the requested sizes rounded up |
| `Layout.CarveFull` | src/backend.c:252-256 | the block counts are the largest that fit |
| `Layout.SlotPlaced` | src/backend.c:516-532 | each log slot lies in the log area, aligned |
| `Layout.BlockPlaced` | src/backend.c:405-423 | each block other than id data_nlba lies in its area, aligned |
| `Layout.RowsAdjoin` | src/backend.c:414-420 | no gaps: each slot and block, but for id data_nlba, begins where the one before it ends |
| `Layout.BlocksOverlapExactly` | src/backend.c:414-420 | two block ids share bytes if and only if one is data_nlba and the other a data block in the last meta_bsize bytes of the data area |
| `Layout.FirstMetaIdAliasesLastDataBlock` | src/backend.c:419 | id data_nlba always shares bytes with the last data block |
| `Layout.LayoutSound` | src/backend.c:248-256 | in every pool whose header and log fit: slots and blocks (but for id data_nlba) begin behind the header, are in bounds, aligned, at least as long as asked for and less than 4096 bytes longer, and pairwise disjoint; the first slot begins less than 4096 bytes behind the header, data blocks stay in the data pool, and neither region has room for one more block |
| `TxLog.AppendKeepsPrefix` | src/tx_log.c:344-442 | an append changes no byte of earlier entries |
| `TxLog.AppendedEntry` | src/tx_log.c:361-439 | the entry just written decodes to the operation appended, payload included, over any previous slot contents |
| `TxLog.AppendLast` | src/tx_log.c:344-442 | one append extends the decoded log by exactly that operation |
| `TxLog.LogRoundTrip` | src/tx_log.c:232-269 | after any sequence of appends the cursor decodes exactly those operations in order and stops at slot size |
| `TxLog.StrideAgreesExactly` | src/tx_log.c:307-308 | the fixed stride visits the entries of the cursor if and only if no entry has a payload |
| `TxLog.SeenAsLogged` | src/tx_log.c:468-473 | the restart walk sees a log without payloads exactly as it was written |
| `TxLog.FirstSeen` | src/tx_log.c:497-501 | the first entry is seen with its own payload, in place or not |
| `TxLog.PayloadSpells` | src/tx_log.c:385-390 | a small update whose payload spells an entry: execute decodes the update alone, the restart walk reads the update and the entry, abort reads the entry |
| `TxLog.LaterPayloadMisread` | src/tx_log.c:497-504 | a small update logged behind another entry is redone by the restart walk with log bytes that begin with its own entry: the first byte is the entry kind, whatever the payload |
| `Blocks.SetZero` | src/backend.c:562-586 | a zeroed block has a zero header and checksum |
| `Blocks.ZeroedAt` | src/backend.c:575-578 | byte by byte: the first key_len + val_len bytes after the header are zero, the others are untouched |
| `Blocks.ZeroContained` | src/backend.c:575-578 | zeroing an in-bounds block writes only inside it and leaves it in bounds |
| `Blocks.Sealed` | src/pmbackend.c:434 | after the checksum is written the block is live, and passes the scan's test over the same range |
| `Blocks.IntactExactly` | src/pmbackend.c:753-766 | what the test guarantees, for a checksum that does not collide on the two blocks: a block with the checksum of a valid object passes if and only if header, key, value and, for data blocks, the rest of the key area are that object's |
| `Blocks.CopyForwardAt` | src/pmbackend.c:416-432 | each byte after the copies: new at the offset, otherwise the old value's, otherwise untouched |
| `Blocks.DataPutMeaning` | src/pmbackend.c:395-434 | what a reader gets after a copy-on-write put: key, next version, the longer length, new bytes at the offset, all other old bytes |
| `Blocks.MetaPutMeaning` | src/pmbackend.c:517-537 | what a reader gets after a meta put |
| `Blocks.SizeGuardExact` | src/pmbackend.c:337-340 | a write passing the 32-bit comparison fits if and only if its sum does not wrap, with a wrapping write that passes |
| `InPlace.ReplayVersion` | src/tx_log.c:185 | a touched block's version grows by its number of in-place entries, modulo 2^32 |
| `InPlace.ReplayLength` | src/tx_log.c:187-189 | its length becomes the largest of the old length and every end offset |
| `InPlace.ReplayIdentity` | src/tx_log.c:525-527 | object id and key length are kept |
| `InPlace.ReplayTouched` | src/tx_log.c:523-532 | touched blocks end live with a valid checksum, others are unchanged |
| `InPlace.ReplayByte` | src/tx_log.c:200-205 | each byte is that of the last entry covering it, or the old one |
| `InPlace.ReplayMeaning` | src/tx_log.c:163-210 | these facts together, for every block and every log; that execute ends in this replay is Api.ExecutedReplays |
| `InPlace.FastPathRefinesSlowPath` | src/pmbackend.c:347-432 | for a nonempty write to an existing object the in-place update gives the length, version and value bytes of the copy-on-write block |
| `InPlace.TouchDiffers` | src/pmbackend.c:414-416 | for an empty write one path truncates the value, the other keeps it |
| `InPlace.PathsAgreeExactly` | src/pmbackend.c:347-432 | the two paths give a reader the same length, version and bytes if and only if the write is nonempty or the old value empty |
| `InPlace.IdentityAgreesExactly` | src/pmbackend.c:397-413 | the in-place path keeps the old key and object id, copy-on-write takes those of the call; the whole object agrees exactly when, besides, the call repeats them |
| `SideTable.Find` | src/tx_log.c:170-174 | the search stops at the block's entry, or at the first unused one when there is none |
| `SideTable.Add` | src/tx_log.c:163-192 | the table becomes the old one with the block's version and length raised |
| `SideTable.Process` | src/tx_log.c:517-538 | all collected versions and lengths are written and resealed, no other block changes, the table is blank again |
| `SideTable.Room` | src/tx_log.c:72 | a log patching at most 128 distinct blocks never overruns the table |
| `MachineProofs.BeginKeeps` | src/tx_log.c:125-127 | the status store of begin keeps the invariant |
| `MachineProofs.ShrinkKeeps` | src/tx_log.c:128 | the size store of begin and of abort keeps the invariant |
| `MachineProofs.TakeKeeps` | src/pmbackend.c:360 | taking a free block keeps the invariant |
| `MachineProofs.GiveBackKeeps` | src/pmbackend.c:511-515 | giving it back keeps the invariant |
| `MachineProofs.LogNewKeeps` | src/tx_log.c:361-363 | logging a new block keeps the invariant |
| `MachineProofs.FillKeeps` | src/pmbackend.c:395-432 | any write to a logged block before its checksum keeps the invariant |
| `MachineProofs.SealKeeps` | src/pmbackend.c:434 | writing its checksum keeps the invariant |
| `MachineProofs.AppendKeeps` | src/tx_log.c:420-442 | logging a removal or an in-place update keeps the invariant |
| `MachineProofs.CommitKeeps` | src/tx_log.c:150-157 | commit keeps the invariant, the log taking effect on the committed objects as a whole |
| `MachineProofs.ExecKeeps` | src/tx_log.c:239-269 | each entry of execute keeps the invariant |
| `MachineProofs.RestampKeeps` | src/tx_log.c:523-532 | one block of the metadata pass keeps the invariant |
| `MachineProofs.ExecDoneKeeps` | src/tx_log.c:273-275 | the end of the metadata pass and the clearing of the slot keep the invariant |
| `MachineProofs.DoneLocal` | src/tx_log.c:273-275 | at the end of execute each of the transaction's blocks agrees with the committed objects and the free ids |
| `MachineProofs.AbortKeeps` | src/tx_log.c:294-300 | marking the slot aborted keeps the invariant |
| `MachineProofs.UndoKeeps` | src/tx_log.c:307-332 | each entry of abort keeps the invariant |
| `MachineProofs.AbortDoneKeeps` | src/tx_log.c:334-339 | clearing the aborted slot keeps the invariant |
| `MachineProofs.StepKeeps` | src/tx_log.c:111-342 | every step of every transaction keeps the invariant |
| `MachineProofs.InitHolds` | src/pmbackend.c:160-168 | a store reopened with nothing live satisfies the invariant |
| `Crash.RecoverLogAt` | src/tx_log.c:468-508 | the walk over what it reads in one slot kills exactly the ids it is about, and changes any other block by the copies it redoes alone |
| `Crash.RecoverSlotsAt` | src/tx_log.c:452-513 | the same over a range of slots |
| `Crash.CopyByte` | src/tx_log.c:497-504 | what the redone copies make of a block, byte by byte |
| `Crash.LastCopyDecides` | src/tx_log.c:497-504 | the last entry copied over a byte decides it |
| `Crash.CopiesKeepExactly` | src/tx_log.c:497-504 | the copies leave a block as it is if and only if what they write was there already |
| `Crash.RecoveryExact` | src/tx_log.c:452-513 | for any blocks, slots, copies and map: the walk leaves live exactly that map if and only if its victims and copies are what separates the two |
| `Crash.PatchAhead` | src/tx_log.c:185 | until the metadata pass has reached a block, its committed version is ahead of its header by the number of in-place entries |
| `Crash.PatchNeverRestored` | src/tx_log.c:497-504 | with a committed in-place update the metadata pass has not reached, no walk reaches the committed objects, whatever it sees in the slots and however it judges them |
| `Crash.CommittedBlock` | src/tx_log.c:239-273 | a committed object is live, and its block up to date unless a log has still to change it in place |
| `Crash.WalkExact` | src/tx_log.c:444-515 | in every state of every run, for every outcome of the checksum tests and whatever the stride reads: the walk restores the committed objects if and only if it zeroes none of them, zeroes every other live block, no committed log has in-place entries still to be applied, and what it copies into a committed block is there already |
| `Crash.WrittenExact` | src/tx_log.c:444-515 | slot by slot, when the walked slots are read as written: if and only if no begin in progress covers a committed block, no committed log has in-place entries still to be applied, a committed log failing its test made no block it did not also make obsolete, and what a skipped or misjudged slot should have zeroed is dead |
| `Crash.WrittenSurvivable` | src/tx_log.c:444-515 | the two conditions are the same there |
| `Crash.OrderlyRestorable` | src/tx_log.c:465-466 | the conditions hold when the tests come out right, no begin is in progress and no committed log has in-place entries |
| `Crash.InterruptedWalk` | src/tx_log.c:475-507 | zeroing one more victim keeps a state recoverable |
| `Crash.InterruptedClear` | src/tx_log.c:509-512 | so does clearing a slot whose walk is complete |
| `Crash.InterruptedRecovery` | src/tx_log.c:452-513 | after any number of interrupted walks a complete one reaches the committed objects |
| `Crash.RestartKeeps` | src/pmbackend.c:160-168 | after a restart with the committed objects live, the invariant holds and the free ids are the complement of the committed ones |
| `Crash.ReopenRebuilds` | src/pmbackend.c:731-771 | with no transaction open, the scan finds exactly the running store's free ids and objects |
| `Crash.WalkSeesDurable` | src/tx_log.c:458-466 | the walk depends only on slot status, test outcomes and what it reads |
| `CrashPoints.CrashDuringExecute` | src/tx_log.c:239-256 | after any prefix of execute, with any other transactions open in any state and read in any way, recovery reaches the committed objects if and only if it would have after all of execute |
| `CrashPoints.CrashEqualsExecute` | src/tx_log.c:468-496 | with no other transaction open, it reaches the live map of uninterrupted execute |
| `CrashPoints.UncommittedRun` | src/tx_log.c:281-342 | a run without commit leaves the committed objects as they were |
| `CrashPoints.CrashBeforeCommit` | src/tx_log.c:476-496 | a crash anywhere before the first commit, whatever the walk reads, takes the store back to the live map held at begin if and only if the walk reads none of those objects as new and every other live block as new |
| `CrashPoints.UncommittedExact` | src/tx_log.c:476-496 | the same for any state with no slot committed |
| `CrashPoints.CrashBeforeCommitWritten` | src/tx_log.c:476-496 | with the slots read as written, that is: if and only if no begin in progress covers one of the objects |
| `CrashPoints.CrashInsideBegin` | src/tx_log.c:125-128 | on every store that executed a transaction through the slot, a crash between the two stores of begin makes the walk destroy the committed objects it reads there as new |
| `Runs.EventKeeps` | src/pmbackend.c:160-168 | a step or a crash with restart keeps the invariant |
| `Runs.RunKeeps` | src/tx_log.c:111-515 | so does every run |
| `Runs.AllOrNothing` | src/tx_log.c:444-515 | wherever a run from an empty store is cut, however the tests come out and whatever the stride reads, recovery leaves live exactly the committed objects if and only if Survivable holds there |
| `Runs.OrderlySurvives` | src/tx_log.c:444-515 | nothing is lost where the tests come out right, no begin is in progress, no committed log has in-place entries and no open log a payload |
| `Runs.CommittedChangesOnlyByCommit` | src/tx_log.c:133-161 | a committed object changes over a run only if the run commits, or takes back, a log that names it |
| `Runs.ReopenAfterRun` | src/pmbackend.c:749-767 | once all transactions of a run have ended, a scan finds the running store's objects and free ids |
| `Runs.ConservationAt` | src/tx_log.c:242-256 | each id is exactly one of free, committed, held |
| `Runs.InvConserves` | src/pmbackend.c:360-388 | free, committed and held ids are disjoint, make up all ids, and add up to the size of each region |
| `Runs.Conservation` | src/pmbackend.c:360-515 | the same over every run from an empty store |
| `Runs.Containment` | src/backend.c:309-310 | over every run, header sizes, covered bytes and body of each object stay inside its own block, and val_len <= max_val_len for data |
| `Runs.RemovedTwiceFreedOnce` | src/tx_log.c:242-256 | a later entry about a block already removed in the same log changes no block and no free id |
| `Runs.StagingKeepsLive` | src/pmbackend.c:369-434 | no put, delete or commit step changes a live block of the machine |
| `Runs.Isolation` | src/pmbackend.c:279-321 | over any run of such steps by any transactions, pmb_get returns what it did for every id that was live, blocks taken as separate; in the pool's bytes this is Memory.IsolationInMemory |
| `Runs.WriteAhead` | src/pmbackend.c:384-434 | a step changes a block only if its id is already in the log of the slot that steps |
| `Runs.SinceStep` | src/tx_log.c:281-332 | between begin and the end of abort, a transaction only takes free blocks, writes them and logs |
| `Runs.SinceRun` | src/tx_log.c:281-332 | the same over any number of its steps |
| `Runs.AbortRestores` | src/tx_log.c:281-342 | abort is the inverse of the transaction so far: live map, free ids and free slots are those held at begin, and the slot is empty |
| `Runs.TargetRun` | src/tx_log.c:307-332 | short of execute, nothing any transaction does changes a block an open log names but did not create |
| `Runs.AbortInterleaved` | src/tx_log.c:281-342 | with any other transactions stepping in between, at the end of abort the blocks it created are dead and free and the others it named are as they were |
| `Runs.SlotLifeCycle` | src/kv.h:128-140 | free slots are exactly the empty ones, a step moves only its own slot and only along the life cycle, appends happen only in PROCESSING |
| `Limits.FirstObjectReached` | src/pmbackend.c:384-434 | a first put on an empty store, as a run |
| `Limits.FirstSlotKeepsUncommitted` | src/tx_log.c:452-453 | on every empty store, an uncommitted object written through the first slot survives the restart, whatever the tests say and the walk reads |
| `Limits.RollbackUndoesCommit` | src/tx_log.c:294-298 | taking back an unexecuted commit gives the committed objects before it |
| `Limits.MisjudgedBeforeExecute` | src/tx_log.c:465-466 | if a committed slot fails its test before execute, the walk does what it would have done without the commit, and takes the store back to before it |
| `Limits.MisjudgedMidwayLosesBoth` | src/tx_log.c:488-496 | the same during execute loses both objects of an update already passed |
| `Limits.ReuseHappens` | src/pmbackend.c:360-434 | nothing in the source stops a put into a block an open log still names, nor its commit |
| `Limits.ReuseExact` | src/tx_log.c:482-492 | after such a put a crash is survived if and only if no open slot's walk still zeroes the block or copies something else into it |
| `Limits.UnclearedSlotKillsReuse` | src/tx_log.c:482-492 | so a block freed by a committed transaction and reused before its slot is cleared is lost |
| `Limits.MisreadKills` | src/tx_log.c:468-496 | a committed block the walk reads as its victim is lost |
| `Limits.PayloadReadAsNew` | src/tx_log.c:468-480 | from every state in which a small update can be the first entry of a transaction: its payload spells WRITE(y), the bytes are read so, and a crash before commit destroys the committed y |
| `Limits.PayloadReadAsObsolete` | src/tx_log.c:482-492 | the same after commit and execute, before the slot is cleared, with REMOVE(y) |
| `Limits.AbortAgreesExactly` | src/tx_log.c:307-332 | abort leaves the live objects and free ids the log asks for if and only if it reads every new block of the log as new, and every other block it reads as new is dead and free already |
| `Limits.AbortFreesCommitted` | src/tx_log.c:307-332 | begin, a small update whose payload spells WRITE(y), abort: the committed y is zeroed and put on the free list |
| `Limits.PatchLostInCrash` | src/tx_log.c:497-504 | from every state in which a small update is possible: update, commit, crash, and no walk reaches the committed objects |
| `Limits.PatchLostFromStart` | src/tx_log.c:497-504 | the same as a run on every empty store |
| `Limits.InPlaceRedoIncomplete` | src/tx_log.c:497-504 | what redoing one in-place entry does to its block: never the executed block, and the old one if and only if the payload was there already |
| `Api.PutIsRun` | src/pmbackend.c:359-434 | a copy-on-write put is the run take, log, fill, seal, and keeps the invariant |
| `Api.FreshBlock` | src/pmbackend.c:360 | the block taken is dead and is not the block it replaces |
| `Api.ExecPrefix` | src/tx_log.c:239-269 | after any number of entries of execute, only its transaction's position and table and the blocks have changed, all in bounds |
| `Api.UndoPrefix` | src/tx_log.c:307-332 | the same for abort |
| `Api.ExecutedKeeps` | src/tx_log.c:212-279 | execute run to its end keeps the invariant and makes each of its blocks agree with the committed objects |
| `Api.ExecutedReplays` | src/tx_log.c:212-279 | for a log of any length, execute leaves each patched block as the replay of its in-place entries |
| `Api.ExecutedFrame` | src/tx_log.c:239-273 | execute changes no block its log does not make obsolete or patch |
| `Api.RolledBackKeeps` | src/tx_log.c:281-342 | abort run to its end keeps the invariant |
| `Api.RolledBackOver` | src/tx_log.c:307-332 | abort of a log is the zeroing and return of its new blocks in order |
| `Sessions.ExecuteIsRun` | src/tx_log.c:212-279 | execute is a run of its entries and the final clearing |
| `Sessions.RollbackIsRun` | src/tx_log.c:302-339 | the rest of abort is a run of its entries, the status store and the size store |
| `Sessions.BeginIsRun` | src/tx_log.c:111-131 | begin is the run of its two stores |
| `Sessions.FreeNotNamed` | src/pmbackend.c:360 | between calls no open log names a free block, so whatever the allocator hands out may be used |
| `Sessions.CallRests` | src/pmbackend.c:214-561 | every call leaves the slots so |
| `Sessions.CallIsRun` | src/pmbackend.c:214-561 | every public call by a disciplined caller is a run of machine steps |
| `Sessions.SessionIsRun` | src/pmbackend.c:214-561 | so is every sequence of calls, by any number of interleaved transactions |
| `Sessions.SessionSound` | src/pmbackend.c:214-561 | after any session on an empty store: the invariant, conservation, and survival of a crash exactly where Survivable says so |
| `Sessions.AbortedSessionRestores` | src/pmbackend.c:264-277 | begin, any puts and deletes, possibly commit, then abort, as calls: live objects, free ids and free slots are as before |
| `Sessions.AbortReadWritten` | src/tx_log.c:307-332 | abort over a log read as written is the abort of its operations |
| `Memory.ClearsExactly` | src/backend.c:414-420 | which ids must be left alone for all others to have bytes of their own: the first meta id, or every data block it reaches into |
| `Memory.StoreMirrors` | src/backend.c:405-423 | writing changed blocks into their own extents leaves every other such block as it was |
| `Memory.MemoryMirrors` | src/backend.c:405-423 | over every run that leaves those ids alone, crashes included, the pool holds exactly the machine's blocks |
| `Memory.IsolationInMemory` | src/pmbackend.c:279-321 | isolation, byte for byte, under that condition |
| `Memory.CollisionChanges` | src/backend.c:419 | writing the first meta block changes the last data block unless the byte is the same |
| `Memory.MetaPutOverwritesData` | src/backend.c:419 | from every state between calls whose lowest free data block is the last one: the lists hand a data put that block and a meta put the first meta block, which overwrites it |
| `Paths.ReplayTail` | src/tx_log.c:257-265 | entries that do not patch a block do not matter to its replay |
| `Paths.FastEnd` | src/tx_log.c:257-265 | what a logged small update leaves after commit and execute, whatever else the transaction logged: the committed object, and all blocks the log does not name |
| `Paths.SlowEnd` | src/tx_log.c:242-256 | what a copy-on-write put leaves after commit and execute, whatever else the transaction logged: the new object committed, the old block dead and free, all blocks the log does not name |
| `Paths.FastAndSlowPathsAgree` | src/pmbackend.c:347-432 | a nonempty write made at any point of a transaction that has not patched the object before, through either path, commit and execute, leaves a reader the same length, version and bytes; key and object id are the old ones on one path, those of the call on the other |
| `Paths.SmallPutEnds` | src/pmbackend.c:347-350 | a put of fewer than max_val_len/2 bytes over an object, then commit and execute: the object stays at its id with the new bytes at the offset of the call, all other old bytes, the longer length, the next version, its key and object id; nothing else changes |
| `Paths.PutEnds` | src/pmbackend.c:351-440 | any other data put, then commit and execute: the new id is a committed live object with key, object id, bytes, length and version as promised, over the old object or none; the old id is dead, not committed and free; nothing else changes |
| `Paths.PutMetaEnds` | src/pmbackend.c:448-543 | a meta put, then commit and execute: exactly the key and value of the call, version 1 or the next one; the old id is dead, not committed and free; nothing else changes |
| `Paths.DeleteEnds` | src/pmbackend.c:545-561 | a delete of an object, then commit and execute: the id is dead, not committed and free; nothing else changes |
| `Scan.ThreadsPartition` | src/pmbackend.c:779-789 | the eight ranges cover ids 1 to total+meta-1 exactly once; id 0 appears only when part is 0, in the last one |
| `Scan.ThreadsBalanced` | src/pmbackend.c:779-789 | the ids are shared out evenly: an eighth each, rounded down, the first thread one less and the last at most eight more |
| `Scan.FileStep` | src/pmbackend.c:741-767 | one turn of a thread puts its id into exactly the list its region and checksum choose |
| `Scan.Recover` | src/pmbackend.c:773-799 | under every interleaving each id ends in exactly one of the four lists |
| `Scan.TornBlockFiled` | src/pmbackend.c:749-767 | a block that carries the checksum of an object is filed as an object if and only if it still is that object, and in the free list of its region otherwise |
| `Scan.OneByteFreed` | src/pmbackend.c:759-766 | one changed byte of key or value: the block is filed as free |
| `Scan.HalfPatchedFiled` | src/tx_log.c:202 | after a crash between the copy of an in-place payload and the metadata pass the block is filed as free if and only if the copy changed a byte of the old value |
| `Scan.ScheduleIrrelevant` | src/pmbackend.c:773-799 | any two interleavings build the same four concrete lists |
| `Scan.FreshLists` | src/pmbackend.c:155-159 | the exact contents of a new store's two free lists, which overlap; without meta blocks the meta list is NULL and the data list holds an id with no block |
| `Scan.FirstPutsCollide` | src/pmbackend.c:155-159 | on a new store with a meta region the first data put and the first meta put take the same block, and the lists hold more ids than there are |
| `Scan.EmptyStoreFiled` | src/pmbackend.c:160-168 | reopening a store with nothing live gives region-consistent lists of all ids |
| `Scan.Iterator.Next` | src/pmbackend.c:693-713 | the next lowest id, or position 0 and an error |
| `Scan.Open` | src/pmbackend.c:597-636 | NULL exactly when the region has no object, otherwise positioned at its lowest id |
| `Scan.VisitAll` | src/pmbackend.c:597-723 | the iteration loop visits every id of the list exactly once in ascending order, and the iterator ends invalid |
| `Pool.DataTaken` | src/pmbackend.c:360 | a popped data block is in the data region and leaves region-consistent lists |
| `Pool.MetaTaken` | src/pmbackend.c:485 | the same for meta blocks, and pushing it back restores the list |
| `Pool.FirstMetaTake` | src/pmbackend.c:485 | the first meta put takes the first meta id whenever that is free |
| `Pool.ReturnedInserts` | src/tx_log.c:247-251 | returning a block inserts it into the list of its region |
| `Pool.Clear` | src/backend.c:562-586 | zeroing changes one block |
| `Pool.FillData` | src/pmbackend.c:395-434 | the field-by-field writes give the block whose meaning DataPutMeaning states, sealed |
| `Pool.FillMeta` | src/pmbackend.c:517-537 | the same for meta blocks and MetaPutMeaning |
| `Pool.UpdateBlock` | src/tx_log.c:194-210 | the payload is copied into the one block and the side table raised for it |
| `Pool.NextEntry` | src/tx_log.c:239-269 | where the cursor stands is the next logged operation, and where it goes is the one after |
| `Pool.FreeEntry` | src/tx_log.c:242-256 | an obsolete block is zeroed and returned only if it carries an object |
| `Pool.ExecEntry` | src/tx_log.c:239-269 | one turn of execute on the log's bytes is one machine step |
| `Pool.RunLog` | src/tx_log.c:232-269 | the byte-level loop of execute has the effect of the logged operations in order |
| `Pool.UndoEntry` | src/tx_log.c:309-331 | one turn of abort: whatever the bytes name as new is zeroed and returned |
| `Pool.UndoTurn` | src/tx_log.c:307-331 | the same as a step of the whole loop: what is left to read leads where it did |
| `Pool.UndoLog` | src/tx_log.c:302-332 | the fixed-stride loop zeroes and returns, in order, whatever it reads as new |
| `Pool.FreshAsLogged` | src/tx_log.c:307-332 | on a log without payloads that is the new blocks of the log |
| `Pool.WalkEntry` | src/tx_log.c:470-507 | one turn of the restart walk, whatever it sees: zero the block the entry and the decision choose, or copy the payload and note it in the side table |
| `Pool.WalkTurn` | src/tx_log.c:470-507 | the same as a step of the whole walk: what is left to see leads where it did |
| `Pool.WalkLog` | src/tx_log.c:468-508 | the byte-level walk over one slot has the effect RecoverLogAt describes on what it sees, and leaves what it redid in the side table |
| `Store.CheckSlot` | src/tx_log.c:458-512 | one slot of the walk, judged by its test, with whatever the stride reads; a slot that was not empty ends empty with size 0 |
| `Store.CheckSlots` | src/tx_log.c:444-515 | the whole walk: every slot but the first is walked and emptied, the first is untouched |
| `Store.SlotsSighted` | src/tx_log.c:468-473 | the bytes are read as the crash theorems suppose: a log without payloads as written, and in any case the first entry |
| `Store.RestartRestores` | src/pmbackend.c:160-168 | after any survivable crash in a run, walk and scan bring back exactly the committed objects, free the rest, and leave a state with the invariant |
| `Store.Store.constructor` | src/tx_log.c:57-75 | a handle with all slots free and blank side tables |
| `Store.Store.Read` | src/pmbackend.c:279-321 | the live object at an id, or none |
| `Store.Store.SetSlot` | src/tx_log.c:125-128 | one slot rewritten, nothing else moved |
| `Store.Store.TxBegin` | src/pmbackend.c:214-232 | fails exactly when no slot is free; otherwise the lowest free slot becomes PROCESSING with an empty log |
| `Store.Store.TxCommit` | src/pmbackend.c:234-247 | succeeds exactly in PROCESSING, and the log takes effect on the committed objects |
| `Store.Store.CommitSlot` | src/tx_log.c:150-157 | the slot is COMMITED and the log takes effect |
| `Store.Store.Log` | src/tx_log.c:344-442 | an append succeeds exactly in PROCESSING and extends the decoded log by its operation |
| `Store.Store.Delete` | src/pmbackend.c:545-561 | return codes, and one removal logged |
| `Store.Store.Put` | src/pmbackend.c:323-441 | when each return code comes, as an if-and-only-if over arguments and state, OK included; the in-place entry, or the lowest free block logged, filled and sealed (Paths says what that comes to); on a failed append the block is lost |
| `Store.Store.PutChecked` | src/pmbackend.c:342-440 | put after its argument checks |
| `Store.Store.Replace` | src/pmbackend.c:351-440 | the branch that is not a small update |
| `Store.Store.CopyOnWrite` | src/pmbackend.c:359-440 | take a block, log it, fill it |
| `Store.Store.PutMeta` | src/pmbackend.c:448-543 | when each return code comes, as an if-and-only-if over arguments and state: OK exactly for an open PROCESSING slot, a nonempty key and value that fit, block id 0 or a live id from data_nlba on, and a free meta block; on failure nothing changes, the concrete free lists included |
| `Store.Store.WriteMeta` | src/pmbackend.c:483-542 | the second half of meta put |
| `Store.Store.FreeSlot` | src/tx_log.c:94-98 | the slot id is free again |
| `Store.Store.RunSlot` | src/tx_log.c:232-273 | all entries of execute and the metadata pass |
| `Store.Store.ExecuteSlot` | src/tx_log.c:212-279 | all entries, the metadata pass, an empty slot that keeps its size |
| `Store.Store.TxExecute` | src/pmbackend.c:249-262 | takes effect exactly in COMMITED; the slot id goes back even on failure |
| `Store.Store.MarkAborted` | src/tx_log.c:294-300 | the slot is ABORTED, and an unexecuted commit is taken back |
| `Store.Store.UndoSlot` | src/tx_log.c:302-332 | all entries of abort, as its stride reads them |
| `Store.Store.AbortSlot` | src/tx_log.c:281-342 | the slot marked, everything read as new zeroed and returned, then an empty slot |
| `Store.Store.TxAbort` | src/pmbackend.c:264-277 | takes effect exactly in PROCESSING or COMMITED, over what the stride reads; on a log without payloads that undoes the logged operations; the slot id goes back even on failure |
| `Store.Store.Check` | src/tx_log.c:444-515 | the walk on the handle's own slots and blocks |
| `Store.Store.Reopen` | src/pmbackend.c:160-168 | walk, then scan: free lists are exactly the ids without an intact object, object lists the others; with the first slot empty the handle is the restarted machine |

## Left out

- NVML and libpmem calls, pool files, mapping, persist modes and the sync thread: foreign code and I/O; ordered persistence is assumed.
- The internals of `util_checksum`, which are not part of this model; any nonzero function stands for the checksum of an object. The checksum of a log slot is represented only by the outcome of its test.
- Mutexes and threads: each list operation is one step, threads are interleavings of such steps.
- Crash points inside one step: partial `memset` and `memcpy`; between the status and checksum stores of commit (the case of a failed test); between the header stores and the checksum store of one block in the metadata pass.
- Aborts of logs with payloads as steps of the machine: `Store.Store.TxAbort` and `Limits.AbortAgreesExactly` cover them, the results over runs do not.
- Slot capacity, which the source computes and does not check (`src/tx_log.c:62-64`): the store's appending calls require room in the slot.
- The side tables are blank when the handle is made; the source does not clear them after allocation (`src/tx_log.c:72`).
- Slot counts of 255, for which the 8-bit loops of `tx_log_init` and `tx_log_check` do not end.
- The scan's reading of the first meta id, which in the pool is part of the last data block.
- `pmb_resolve_conflict`, `pmb_inspect`, `pmb_strerror`, logging, NULL-argument checks, `caslist_free`, `pmb_iter_close`: easy members.
- CasLists.Put: ids up to 2^64-2; at 2^64-1 the source's own `end + 1` wraps, and `Ranges.MachinePopExact` gives the exact limit for pop.
- CasLists.CasList.constructor: ends up to 2^64-2, for the same reason.
- CasLists.CasList.PushId: ids up to 2^64-2, for the same reason.
- CasLists.CasList.Insert: ids up to 2^64-2, for the same reason.
- CasLists.CasList.InsertApart: ids up to 2^64-2, for the same reason.
- CasLists.CasList.InsertBeyond: ids up to 2^64-2, for the same reason.
- CasLists.New: ends up to 2^64-2, for the same reason.
- SideTable.Add: a table with room; the source would write past its 128 entries, and `SideTable.Room` says when there is room.
- InPlace.FastPathRefinesSlowPath: key and object id are not compared here; `InPlace.IdentityAgreesExactly` does.
- MachineProofs.TakeKeeps: not for an id an open log names; `Limits.ReuseExact` says what happens then.
- MachineProofs.LogNewKeeps: not for an object another open transaction uses, which the source does not check.
- MachineProofs.AppendKeeps: not for an object another open transaction uses, nor for an in-place update of a dead block.
- MachineProofs.AbortKeeps: not for logs with payloads.
- MachineProofs.StepKeeps: for the steps of the discipline in `Machine.Can`.
- Blocks.IntactExactly: for two blocks on which the checksum does not collide, since a 64-bit checksum must collide somewhere.
- Scan.TornBlockFiled: the same.
- Scan.OneByteFreed: the same.
- Scan.HalfPatchedFiled: the same.
- TxLog.LaterPayloadMisread: where the walk stays inside the slot, and for two entries.
- Paths.SmallPutEnds: for an object no other open transaction uses and this one has not patched or removed; commit follows the put.
- Paths.PutEnds: for an object no other open transaction uses and this one has not patched; commit follows the put.
- Paths.PutMetaEnds: the same.
- Paths.DeleteEnds: for an existing object no other open transaction uses and this one has not patched; commit follows the delete.
- Runs.EventKeeps: a crash is possible where `Crash.WalkExact` says it is survived. The skipped first slot counts as idle after a restart; the source leaves its status, which no later walk reads and the next begin on it overwrites.
- Runs.RunKeeps: the same.
- Runs.Conservation: not for a store just created, whose free lists overlap; `Scan.FirstPutsCollide`.
- Runs.Containment: that a filled block is contained is a condition of the step, met by the puts (`Sessions.NewData`, `Sessions.NewMeta`); extents of different ids are disjoint except as `Layout.BlocksOverlapExactly` says.
- Runs.StagingKeepsLive: about the machine's blocks; for the pool's bytes see `Memory.IsolationInMemory`.
- Runs.Isolation: about the machine's blocks; for the pool's bytes see `Memory.IsolationInMemory`.
- Runs.WriteAhead: about the machine's blocks; `Memory.MemoryMirrors` relates them to the pool's bytes.
- Runs.AbortRestores: for logs without payloads, and with no other transaction stepping in between, since others change the live map themselves; `Runs.AbortInterleaved` is the statement with interleaving.
- Pool.WalkEntry: a copy must stay inside its block and the side table have room, which the source does not check.
- Pool.WalkTurn: the same.
- Pool.WalkLog: copies must stay inside their blocks and the side table have room, which the source does not check.
- Store.Store.Log: requires room in the slot.
- Store.Store.Delete: requires room in the slot.
- Store.Store.Put: a write whose 32-bit sum wraps and still passes the size comparison, and a put over a meta object, are excluded; the source accepts both and would write outside the block.
- Store.Store.PutChecked: requires room in the slot, and not for a put over a meta object.
- Store.Store.Replace: requires room in the slot, and not for a put over a meta object.
- Store.Store.CopyOnWrite: requires room in the slot, and not for a put over a meta object.
- Store.Store.PutMeta: requires 32-bit sums that do not wrap.
- Store.Store.WriteMeta: requires room in the slot.
- Store.Store.RunSlot: at most 128 distinct blocks patched in place by one log.
- Store.Store.ExecuteSlot: at most 128 distinct blocks patched in place by one log.
- Store.Store.TxExecute: at most 128 distinct blocks patched in place by one log.
- Store.Store.Read: returns the object as a value, not the key and value pointers into the pool.
- Scan.Iterator.Next: the iterator owns its list; two iterators sharing one region's list are not modelled.
- Pool.UndoEntry: an id read as new must exist; the source pushes any id to the meta list.
- Pool.UndoTurn: the same.
- Pool.UndoLog: ids read as new must exist, and the stride stay inside the slot.
- Store.Store.UndoSlot: the same.
- Store.Store.AbortSlot: the same.
- Store.Store.TxAbort: the same.
- Store.CheckSlot: the stride stays inside the slot, and nothing is redone in place, which would leave the side table dirty for the next transaction.
- Store.CheckSlots: the same.
- Store.Store.Check: the same.
- Store.Store.Reopen: the same.
- CrashPoints.CrashDuringExecute: for a log without in-place entries, read as written; with them `Crash.PatchNeverRestored` applies until the metadata pass is done.
- CrashPoints.CrashEqualsExecute: the same.
- Runs.AbortInterleaved: not for logs with payloads.
- Sessions.AbortedSessionRestores: not for logs with payloads.
- Sessions.CallIsRun: for callers who keep the discipline.
- Sessions.SessionIsRun: for callers who keep the discipline.
- Sessions.SessionSound: for callers who keep the discipline.
