# The cas storage engine in Dafny

`cas` is a content-addressed store: refs name directory trees, objects are found by their hash, writes go to a circular
write-ahead log and an in-memory overlay, and a commit flips between two superblock slots. Its own Verus proofs cover
single functions. This project models the engine as a whole and proves the properties that join those functions: crash
safety of whole runs, recovery, exact garbage collection, canonical trees, conservation of space.

**Contents are symbolic.** A disk or an object is a sequence of cells: a raw byte, or one byte of a digest. A digest
remembers the cells it was computed from. So hashing is injective, a checksum can only come from hashing, and neither is
an axiom. User data are raw bytes. Everything else about an image is laid out byte for byte.

**The device** (`Device`) has durable contents and a queue of unflushed writes. A crash keeps, drops or tears each of
them on its own, in order. The device records every state it was ever in; its invariant says that the record is gapless,
each state one device operation from the one before.

**The engine** (`Store.Store`) is a class over that device with the fields of the source. For every state of the record
it keeps a promise: the acknowledged operations, the records that may lie half written at the tail, the last completed
commit, and the commit in the making. Its invariant says that any crash in any recorded state leaves a disk that stands
for one of the two commits, whole, and for the acknowledged operations or those and one in flight; and that each promise
is kept by the next. Every method says that the record and the promises only grow, and when it may fail. After a failure
no more is known of the engine than that all promises stand, and from there `Runs.PowerLoss` mounts a sound engine
again. `Runs.Run` covers commands and failures and power losses in any device state, any number of times: it returns the
moments between the commands, and says of each command how it leads from one moment to the next.

**How the proof is built.**

- `Ring`, `WalLog`, `WalCodec`: the log as a queue seen from its tail, and what a torn append can leave.
- `Superblock`, `ChunkIndex`, `RefTables`, `Durable`, `Recovery`: one commit on disk, the history a disk stands for, and mount.
- `CrashSafety`, `AppendStep`, `CommitStep`, `ChunkSpace`: each device state of an append, an object write, a commit.
- `Resurface`: records lost in one crash that come back in a later one.
- `History`: what operations mean for a path, when they hide a difference, and why replaying writes and unlinks again is
  harmless.
- `Volatile`, `DirtyBytes`, `Scheduler`, `Accounts`, `Sweep`, `Format`: the record queue and overlays, the flush scheduler
  and its accounts of the history, the sweep, format.
- `Intervals`, `PathOverlay`, `RenameReplay`, `Overlay`: one file's pending writes, the overlay by path, renames in a
  replayed log, and the id-keyed overlay.
- `Chunker`, `FileChunks`, `Entries`, `NodeLevels`, `Prolly`, `Tree`, `TreeEdit`, `EditShape`, `PathOrder`, `TreeFlush`,
  `Validation`, `Gc`: chunking, directory trees, edits and exactly when they fail, the flush of an overlay into a tree, the check
  before a mutation is logged, and the mark walk.

**Where the code does not do what it promises**, each with an input and the exact condition under which it does:

- An insert of empty data drops an interval that starts at its offset: `Intervals.EmptyInsertExample`,
  `Intervals.InsertExact`.
- A rename of a path that is unlinked in the overlay but still committed brings the file back:
  `PathOverlay.RenameExample`, `PathOverlay.RenameExact`.
- A rename onto a name with an open handle leaves the handle without a name: `Overlay.RenamedExact`. A rename of a name
  with an open handle and no pending write finds no data under its id, and the source stops there, after the record was
  logged: `Overlay.OpenedExample`, `Overlay.Unwritten`, `Overlay.IdOverlay.Rename`.
- A mutation is checked so that every logged record can be flushed. A write of `a/b` and then of `a` passes the check, and
  the flush is refused: `Validation.UnderExample`, `Validation.ValidatedExact`.
- An unlink of a name that is not there is logged too. Replayed after files below the name were committed, it removes the
  directory with them: `Validation.LaterDirectory`, `Validation.DirRemovalExact`.
- A ref table with a provenance or message too long for its length field, a retention class above 2 or the greatest
  number as a parent does not read back: `RefTables.TableRoundTrip`. The times of a ref's snapshots grow strictly unless
  the one before is the greatest: `RefTables.SnapTimeExact`.
- A record lost in one crash can come back in a later one although another record was in flight:
  `Resurface.TwoCrashes`, `Resurface.ResurfaceExact`. The promise of "one operation in flight" therefore ranges over the
  set `attempted`. The set is empty after every acknowledged append, and then the one operation is the one being appended.
- Formatting leaves the log area as it is, so records of an earlier store may be replayed by the first mount,
  `Format.StaleRecord`, `Format.FormatEmpty`, or by a later one, `Format.StaleSecond`, `Format.FormatExact`. Whole runs
  are safe on a clean log area, such as that of a new device: `Format.NewDevice`.
- Replaying a rename over a tree that holds it is not harmless, unlike writes and unlinks:
  `PathOverlay.RenameNotIdempotent`, `RenameReplay.ReplayExact`.
- A write too large for the log is committed without a record, but older records of its file may still be in the log and
  are replayed over it at the next mount: `Volatile.UnloggedExample`, `History.UnloggedExact`.
- The scheduler's bounds do not survive a crash: `Volatile.BudgetLost`. A mounted ref is within its bounds exactly when
  the positions its records leave written, and the records, are few enough: `Volatile.MountedWithin`.
- A flush that fails has already dropped the overlay: `PathOverlay.DropExact`. If the engine goes on, the next flush can
  lose the dropped operations for good: `Volatile.ForgottenExample`. It does not at a path if and only if the later
  operations hide the difference: `Volatile.ForgottenExact`, `Volatile.ForgottenMount`.
- After a failed commit the old index frame is deferred twice, and merging does not always remove the second copy:
  `Extents.DuplicateExact`.
- Creating a ref that exists leaves its records in the log, and old writes return: `History.ResetExample`,
  `History.ResetExact`.

## Model

| member | source | states |
|---|---|---|
| Runs.CrashAnywhere | cas/src/store.rs:1826-2048 | for every state of a gapless device record and every fate of its unflushed writes, mount succeeds and each path of each ref reads as the history acknowledged by then, or as that and one operation in flight |
| Runs.PowerLoss | cas/src/dev.rs:211-248 | a power loss in any state of the record, whatever happened to the engine after it, mounts to an engine with its whole invariant, whose history is what survived, whose commit is the last one or the one in the making, and whose record and promises continue the old ones; between operations nothing is lost; a ref is within its bounds if and only if its records in the log are |
| Runs.CommitWhole | cas/src/store.rs:3140-3211 | after a crash anywhere in a run mount selects the last completed commit or the one in the making, and it is whole: its table is the one its superblock names, every object of its index reads back unchanged, and every tree of its table is all there |
| Runs.NeverTakenBack | cas/src/store.rs:2540-2607 | what was acknowledged in one device state is part of what is acknowledged in every later one |
| Runs.AckedSurvives | cas/src/store.rs:2540-2607 | an operation acknowledged in one device state is read back after a crash in any later one |
| Runs.TablesGrow | cas/src/store.rs:2059-2150 | every later commit has every ref and snapshot of every earlier one |
| Runs.TableSurvives | cas/src/store.rs:2059-2150 | a ref or snapshot durable in one device state is found by a mount after a crash in any later one |
| Runs.Run | cas/src/store.rs:1749-1821 | from a formatted device, any sequence of commands and power losses leads from moment to moment: a command is refused exactly when it is not taken, and then nothing happens; one that is done has its effect, only adds to the record, acknowledges a logged operation in the last device state, keeps refs within their bounds and relieves size and staleness, the latter in terms of the history; one that fails has a cause; a power loss keeps what was acknowledged by its state and a commit of that state; at every moment the record is crash safe for its promises, every acknowledged operation is promised from its mark on, and the accounts are those of the history |
| Runs.CrashFree | cas/src/store.rs:2540-2607 | while no power is lost, the history is exactly the logged operations the caller was told are done, and an engine that is up is within all its bounds |
| Runs.StaysAcked | cas/src/store.rs:2540-2607 | an operation once acknowledged stays so in its place, through failures and power losses, unless the power is lost in a device state before its acknowledgement |
| Runs.RunReads | cas/src/store.rs:1826-2048 | at every moment of a run a crash in any device state from an acknowledgement on reads the operation back |
| Runs.Step | cas/src/store.rs:2542-3291 | one command keeps the invariant, has its effect and only adds to the record; every ref that was within its bounds stays within; after a logged operation its ref is within, the total is low or one ref is left, and no ref has an operation since its last flush that is past the staleness bound; it fails only when a flush or a commit is stuck or a number is at its ceiling |
| Runs.Lose | cas/src/dev.rs:211-248 | a power loss and a mount lead to the next moment: operations with a mark up to the state in which the power was lost keep their place and mark, and a ref is over its bounds exactly when its records are |
| Runs.FormatStore | cas/src/store.rs:1749-1821 | formatting succeeds exactly when the device is large enough, and gives an engine with an empty history and a record of one state |
| Store.Store.Mount | cas/src/store.rs:1826-2048 | mounting a disk that stands for a history establishes the invariant with that history; a ref is within its bounds if and only if its records in the log are |
| Store.Store.Put | cas/src/store.rs:399-438 | an object is found or written clear of the durable commit, at the first free extent that is long enough or else at the tail; the invariant holds, the index gains at most that object and nothing changes when it was there; it fails exactly when the object is new and no free extent and no space behind the tail takes its frame |
| Store.Store.WriteIndexFrame | cas/src/store.rs:346-380 | the frame goes to the first free extent that is long enough or else to the tail, free in both commits; it records the merged free list, and its pad is never negative and fills the extent; it fails exactly when there is no room |
| Store.Store.PrepareCommit | cas/src/store.rs:3154-3160 | at barrier 1 the next commit's table and index frame are durable and the old commit still stands; it fails only for want of room or of a generation |
| Store.Store.Flip | cas/src/store.rs:3184-3202 | while the superblock is written the promise names both commits and either stands, after barrier 2 the new one |
| Store.Store.Commit | cas/src/store.rs:3140-3211 | the working table becomes the durable one, exactly the flushed front of the queue is dropped, deferred extents become free, and every device state on the way is crash safe; when it fails the table or the index frame has no room or the generation is at its ceiling, and when that is so at the start it fails |
| Store.Store.WalWrite | cas/src/store.rs:2525-2538 | one or two writes and one flush put the record at the tail; each device state on the way is crash safe |
| Store.Store.Append | cas/src/store.rs:2560-2579 | an acknowledged append extends the history by the operation and applies it to its ref's overlay |
| Store.Store.LogThenApply | cas/src/store.rs:2542-2607 | the operation is acknowledged; its ref is then within its byte and operation budget, the latter counted in the history since its last flush; every ref that was within stays within, the total is within the low watermark or one ref is left, and no ref's first operation since its last flush is past the staleness bound; when neither the ring nor the budgets nor the total nor any age calls for a flush, it succeeds and memory changes in the operation's own overlay, its account and the log only; it fails only when a flush or a commit is stuck or the sequence number is at its ceiling |
| Store.Store.RelieveWal | cas/src/store.rs:2684-2703 | relief terminates and makes room for the record unless the flush of the ref of the oldest record, or a commit, is stuck; a ref is flushed only if its operation is the oldest of a log that is crowded, and nothing happens when there is room already |
| Store.Store.RelieveSize | cas/src/store.rs:2630-2660 | nothing happens while the total is at most the low watermark or at most one ref is dirty; otherwise the refs flushed are the biggest, ties by name, one ref at least stays, and the total with the last one flushed was still above the watermark; it ends with the total at most the watermark or one dirty ref, unless the flush of a dirty ref or the commit is stuck |
| Store.Store.RelieveStaleness | cas/src/store.rs:2728-2756 | exactly the refs whose first operation since their last flush is past the bound by the given clock are flushed, and nothing happens when there is none; it fails only when the flush of such a ref or the commit is stuck |
| Store.Store.Contain | cas/src/store.rs:2581-2591 | a ref over its byte or operation bound is flushed and committed; for any other nothing happens; it fails only when its flush or the commit is stuck |
| Store.Store.FlushRef | cas/src/store.rs:2993-3135 | the ref's overlay becomes tree, its records are marked, and the invariant (so every read) is kept; when it fails the edits are refused or an object they need is not stored and has no room, and when that is so at the start it fails; then the overlay is gone and the log as it was |
| Store.Store.Read | cas/src/store.rs:2852-2876 | a read returns exactly what was acknowledged for the path; it is refused exactly for an unknown ref, and where the tree has a directory, or a file on the way, at the path it needs |
| Store.Store.CreateRef | cas/src/store.rs:2059-2075 | a new name becomes a durable empty ref; it fails only when the empty tree has no room or the commit is stuck |
| Store.Store.Snapshot | cas/src/store.rs:2117-2150 | the snapshot's tree reads as the ref's whole acknowledged history; its id is above all earlier ones, its time is the least that is not before the clock and after the one before, unless that one is at the greatest, its parent is the last one; it fails only for an unknown ref, a number at its ceiling, or a flush or commit that is stuck |
| Store.Store.SyncAll | cas/src/store.rs:3218-3224 | afterwards no ref is dirty, the log is empty, the working table is the durable one and every indexed row is where it was, unless a flush or a commit is stuck |
| Store.Store.Condemn | cas/src/store.rs:3257-3281 | dropping dead rows keeps the invariant: the frame of every dead row is deferred, not free |
| Store.Store.Collect | cas/src/store.rs:3235-3291 | afterwards the index holds exactly the objects reachable from refs and snapshots and the table, every live row there was is as it was, and every byte of a dead row's frame is available once; it fails only when a flush or a commit is stuck |
| Store.CanAppendNow | cas/src/store.rs:2503-2514 | when usage and the record fit the ring, the append touches no live record |
| Store.UsageLog | cas/src/store.rs:2503-2514 | the computed usage is the total length of the live records |
| CrashSafety.SafeChunks | cas/src/store.rs:334-345 | with only writes clear of the commit pending, every crash leaves the same commit and history |
| CrashSafety.SafeAppend | cas/src/store.rs:2516-2538 | with parts of a record pending, every crash leaves the history or one record more |
| CrashSafety.AppendLands | cas/src/store.rs:2540-2579 | once flushed, the record is part of the history the disk stands for |
| CrashSafety.SafeFlip | cas/src/store.rs:3194-3202 | with a superblock write pending, every crash, tearing included, leaves a disk that stands for the last commit or for the new one, and for the same history |
| CrashSafety.FlipLands | cas/src/store.rs:3194-3202 | a slot carrying the new superblock makes the disk stand for the new commit |
| AppendStep.AppendSplit | cas/src/store.rs:2525-2538 | a record that wraps: both states before the single flush are crash safe, and the flush lands the record |
| AppendStep.AppendWhole | cas/src/store.rs:2525-2538 | the same for a record that does not wrap |
| CommitStep.FrameStep | cas/src/store.rs:3158-3160 | up to barrier 1 every state is crash safe for the old commit |
| CommitStep.FlipStep | cas/src/store.rs:3184-3202 | around barrier 2 every state is crash safe, and the new commit lands |
| CommitStep.ReadyStep | cas/src/store.rs:3161-3194 | at barrier 1 the disk holds all that the next superblock refers to, and the new head drops only what the trees hold |
| CommitStep.RingNext | cas/src/store.rs:580-609 | moving the head past flushed records, or starting an emptied log over, keeps the ring in order |
| ChunkSpace.PutSpace | cas/src/store.rs:280-299 | handing out an extent keeps the region tiled, each byte once |
| ChunkSpace.ClearWrite | cas/src/store.rs:334-345 | a write into a handed-out extent touches nothing the durable commit refers to |
| ChunkSpace.NextSpace | cas/src/store.rs:3203-3209 | after the flip the recorded free list is the free list and the region is tiled |
| Recovery.MountFinds | cas/src/store.rs:1826-2048 | mount selects the commit the disk stands for, with its index, free list, table and log |
| Recovery.RecoveryReads | cas/src/store.rs:1985-2048 | the mounted store reads, on every path of every ref, as the history the disk stands for |
| Recovery.ObjectsReadBack | cas/src/store.rs:382-393 | every indexed object reads back with its hash verified |
| Recovery.ReplayReads | cas/src/store.rs:2783-2802 | the overlay replayed from a log reads as the log applied to the tree |
| Volatile.AdvanceHead | cas/src/store.rs:580-609 | the new head is the first unflushed record, or the start when all are flushed |
| Volatile.HeadCovered | cas/src/store.rs:3161-3171 | every ref's tree holds all its operations before the new head |
| Volatile.ViewReads | cas/src/store.rs:2852-2876 | overlay over tree reads as the acknowledged history of the ref |
| Volatile.ViewFlush | cas/src/store.rs:3114-3134 | flushing a ref keeps every ref's reads |
| Volatile.CleanMarked | cas/src/store.rs:2675-2683 | a ref without a dirty overlay has no unflushed record |
| Volatile.Rebuild | cas/src/store.rs:1999-2034 | replay gives each ref the overlay of its records, their count and the time of the first, and queues them at their physical offsets |
| Volatile.MountedWithin | cas/src/store.rs:1999-2034 | after a mount a ref is within its bounds if and only if its records in the log leave no more distinct positions written than the byte budget, and are no more than the operation bound |
| Volatile.BudgetLost | cas/src/store.rs:2581-2591 | a ref flushed for being over its budget has its records kept in the log by another ref's, and is over the budget again after a mount |
| Volatile.ForgottenExample | cas/src/store.rs:2993-3122 | after a failed flush the next one leaves out the dropped operation, and the commit drops its record |
| Volatile.ForgottenExact | cas/src/store.rs:2993-3122 | after a failed flush the next one reads, at a path, as acknowledged if and only if the later operations hide the difference the dropped ones made |
| Volatile.ForgottenMount | cas/src/store.rs:3161-3177 | and a mount after the commit does if and only if the records that are left hide it |
| Volatile.UnloggedExample | cas/src/store.rs:2545-2551 | a write larger than the log is flushed and committed, another ref's record keeps an older record of its file in the log, and the next mount undoes it |
| DirtyBytes.PendingBytes | cas/src/store.rs:2783-2802 | a replayed log holds as many dirty bytes as its records leave distinct positions written and not unlinked later |
| Scheduler.Measure | cas/src/store.rs:2631-2647 | the measured sizes and total are the stored bytes of the overlays |
| Scheduler.Biggest | cas/src/store.rs:2637-2645 | the ref that goes next is bigger than every other, or as big with the lesser name |
| Scheduler.TrimMore | cas/src/store.rs:2646-2655 | while there is pressure, one more flush of the biggest keeps the flushed refs ahead of the kept ones and takes no more than it needs |
| Accounts.AcctAppend | cas/src/store.rs:2783-2790 | logging an operation keeps every account at the number of its ref's operations since the last flush and the time of the first |
| Accounts.AcctFlush | cas/src/store.rs:2993-3000 | so does a flush of a ref |
| Accounts.StaleIs | cas/src/store.rs:2735-2744 | an account is past the bound if and only if the first operation of its ref since the last flush is |
| Accounts.FewIs | cas/src/store.rs:2585-2587 | an account is within the operation bound if and only if the history since the last flush is |
| Sweep.MarkAll | cas/src/store.rs:3249-3256 | marking from all roots succeeds and gives exactly the union of what they reach and the table |
| Sweep.SweepRows | cas/src/store.rs:3257-3281 | rows are kept exactly when live, in order, every swept extent is accounted for, and every dead row's frame is swept |
| Format.Formatted | cas/src/store.rs:1749-1821 | a device with a clean log area is formatted to a disk that stands for the empty history |
| Format.NewDevice | cas/src/dev.rs:170-209 | a device of zeros has a clean log area and is formatted to a disk that stands for the empty history |
| Format.FormatDev | cas/src/store.rs:1749-1805 | format succeeds exactly on large enough devices and writes exactly the first commit |
| Format.FormatReplays | cas/src/store.rs:1769-1774 | the first mount after a format replays whatever run of records the log area holds from number 1 |
| Format.FormatEmpty | cas/src/store.rs:1769-1774 | a formatted store starts empty if and only if no record numbered 1 stands at the start of the log area |
| Format.FormatExact | cas/src/store.rs:1769-1774 | every mount before the first commit finds exactly the store's own records if and only if no record of an earlier store stands, with the next number, where the next record would be looked for |
| Format.StaleSecond | cas/src/store.rs:1769-1774 | a store that starts empty finds an earlier store's second record behind its own first |
| Format.StaleRecord | cas/src/store.rs:1769-1774 | an earlier store's first record comes back |
| Ring.RingMount | cas/src/store.rs:1985-1992 | rotating by the head and walking from the next sequence number returns exactly the live records |
| Ring.UsageIsLogLen | cas/src/store.rs:2503-2514 | usage is the live length, also when the ring is exactly full |
| Ring.RingTorn | cas/src/store.rs:2516-2538 | a torn append leaves the log as it was, or with one whole record that was in flight here |
| Ring.RingAppend | cas/src/store.rs:2560-2579 | a whole record at the tail extends the log by it and touches no live record |
| Ring.RingAdvance | cas/src/store.rs:3161-3177 | dropping records from the front keeps the rest in place |
| Ring.RingReset | cas/src/store.rs:3178-3182 | an emptied log starts over at offset 0 and nothing stale is found again |
| Ring.RingMissed | cas/src/store.rs:2516-2538 | when no record attempted at the tail is there whole, the log is as it was |
| Resurface.ResurfaceExact | cas/src/store.rs:2516-2538 | while a record is being appended some crash completes another record of the same number if and only if some kept part of the append stays clear of its checksum, which is there, and sets every other cell that is not |
| Resurface.CrashResolves | cas/src/dev.rs:211-248 | every crash during an append keeps a prefix of each of its writes |
| Resurface.TwoCrashes | cas/src/store.rs:2516-2538 | two crashes by which a lost record comes back in place of the one in flight |
| WalLog.RecoverRecords | cas/src/store.rs:1517-1634 | the loop returns the maximal run of valid records with consecutive numbers |
| WalLog.RecordRoundTrip | cas/src/disk.rs:665-698 | a record reads back as itself, whatever follows |
| WalLog.WalkLog | cas/src/store.rs:1517-1634 | a log of records walks back to exactly those records |
| WalCodec.PayloadRoundTrip | cas/src/disk.rs:540-663 | every operation within the length bounds is printed and parsed back |
| WalCodec.WalkerIsDecoder | cas/src/store.rs:891-1155 | the recovery walker accepts exactly the payloads the decoder accepts |
| Superblock.RoundTrip | cas/src/disk.rs:70-139 | a superblock reads back as itself |
| Superblock.TornSlot | cas/src/disk.rs:366-393 | a torn superblock write leaves the new superblock or one that loses to the live slot |
| Superblock.OutdatedLoses | cas/src/store.rs:476-504 | a slot vouched for by no checksum of this generation is not picked |
| Device.CrashDev.Write | cas/src/dev.rs:263-270 | a write in range is queued and seen by reads, one out of range changes nothing |
| Device.CrashDev.Flush | cas/src/dev.rs:272-277 | a flush makes everything queued durable |
| Device.CrashDev.Crash | cas/src/dev.rs:211-248 | each queued write is kept, dropped or torn on its own, in order |
| Device.CrashCell | cas/src/dev.rs:211-248 | after a crash each byte is the durable one or one some queued write put there |
| History.Idempotent | cas/src/store.rs:3121-3125 | applying a run of writes and unlinks to a file that already holds it changes nothing |
| History.Replay | cas/src/store.rs:2783-2802 | replaying everything from the head over a tree that holds more than the head reads as the whole history |
| History.UnloggedExact | cas/src/store.rs:2545-2551 | a write that bypasses the log survives the next mount, whatever its data, if and only if no record in the log unlinks its path or writes into its range |
| History.HidesExact | cas/src/store.rs:2783-2802 | two contents, either of which may be absent, read the same after a run of writes and unlinks if and only if the run unlinks the path, or they agree wherever nothing is written, in length unless both end within what is written, and in being there unless something is written |
| History.ResetExact | cas/src/store.rs:2059-2075 | a ref created again is empty if and only if every path its records in the log write is unlinked by a later one |
| History.ResetExample | cas/src/store.rs:2059-2075 | a single logged write comes back in a ref created again |
| Extents.Alloc | cas/src/store.rs:280-299 | the first extent that is long enough, cut at its front, else the tail; the extent leaves the available bytes exactly once, and failure means no fit |
| Extents.MergedFree | cas/src/store.rs:303-323 | merging keeps exactly the same bytes, sorted, with no more extents and no two touching |
| Extents.MergeAdjacent | cas/src/store.rs:303-323 | the loop computes the map of the source for every list, and merges exactly the adjacent extents of an ordered one |
| Extents.DuplicateExact | cas/src/store.rs:3155-3160 | an extent deferred twice is merged to one if and only if no free extent ends where it begins; otherwise a byte of it is free twice |
| ChunkIndex.IndexRoundTrip | cas/src/disk.rs:417-483 | an index object reads back as its rows and free list, whatever its pad |
| RefTables.TableRoundTrip | cas/src/disk.rs:762-862 | a ref table, with refs, snapshots and tags, reads back as itself if and only if every length and number in it fits its field |
| RefTables.SnapTimeExact | cas/src/store.rs:2117-2150 | a snapshot's time is never before the clock or the one before it, and is after it if and only if that one is not at the greatest time |
| RefTables.SnapKeeps | cas/src/store.rs:2117-2150 | a snapshot keeps the table readable, ids below the ref's next, and times in the order of ids |
| ChunkIndex.FrameRoundTrip | cas/src/disk.rs:877-898 | a frame reads back as its payload, whatever follows |
| Intervals.Insert | cas/src/overlay.rs:108-135 | the loop computes the inserted map, sorted and disjoint, and the delta is the exact change in stored bytes |
| Intervals.InsertIsSplice | cas/src/overlay.rs:108-135 | applying the new map equals splicing the data into the old result, zero-filled |
| Intervals.InsertExact | cas/src/overlay.rs:133 | insertion is the splice on every base if and only if data is non-empty or no interval covers its offset |
| Intervals.EmptyInsertExample | cas/src/overlay.rs:133 | an empty write at the offset of a dirty byte drops it |
| Intervals.ApplyOver | cas/src/overlay.rs:89-104 | the loop applies the intervals in order over the base |
| PathOverlay.Flush | cas/src/store.rs:3050-3112 | after removals and rewrites every path reads as overlay over old tree |
| PathOverlay.RunReads | cas/src/overlay.rs:809-868 | over every run of writes, unlinks and renames the overlay reads as the plain file map |
| PathOverlay.FlushRun | cas/src/store.rs:2993-3135 | the same after the overlay has become tree |
| PathOverlay.RenameExact | cas/src/store.rs:2408-2486 | the store's rename is the file move if and only if the source reads as a file |
| PathOverlay.RenameExample | cas/src/store.rs:2408-2486 | an unlinked, still committed file comes back under the new name |
| PathOverlay.DropExact | cas/src/store.rs:2993-3003 | reads are as before without the overlay, whatever the tree, if and only if it was empty |
| PathOverlay.RenameNotIdempotent | cas/src/store.rs:2806-2848 | replaying a rename over a tree that holds it moves the new source onto the target |
| RenameReplay.ReplayExact | cas/src/store.rs:2806-2848 | replaying a rename and any writes and unlinks after it, over the tree that holds them all, changes no read if and only if the source is absent there, or a later record unlinks the target, or the file at the source and the one moved agree wherever no later record writes the target, and in length unless both end within what is written |
| Overlay.IdOverlay.Write | cas/src/overlay.rs:188-224 | shows the path-keyed write; indices and byte census stay exact |
| Overlay.IdOverlay.Unlink | cas/src/overlay.rs:226-245 | shows the path-keyed unlink, keeping an open id nameless |
| Overlay.IdOverlay.Open | cas/src/overlay.rs:260-272 | a handle is counted on the name's id and the shown overlay is unchanged |
| Overlay.IdOverlay.Close | cas/src/overlay.rs:280-310 | the last close drops orphans and unused reservations; the shown overlay is unchanged |
| Overlay.IdOverlay.WriteOrphan | cas/src/overlay.rs:324-333 | a write to a nameless id is held and counted but shown nowhere |
| Overlay.IdOverlay.CarryOpen | cas/src/overlay.rs:353-367 | only open handles survive a flush, bound to the same names, with nothing dirty |
| Overlay.IdOverlay.OpenForRename | cas/src/overlay.rs:435-448 | shows the path-keyed step |
| Overlay.IdOverlay.Rename | cas/src/overlay.rs:456-474 | shows the path-keyed rename while the intervals stay with their id; it stops if and only if the name has an open handle and no pending write, and the indices agree afterwards if and only if the target has no handle |
| Overlay.IdOverlay.MoveCommitted | cas/src/store.rs:2806-2848 | a file that is not live, tombstoned or not, is brought in and moved as in the path-keyed overlay; the indices agree if and only if the target has no handle |
| Overlay.RenamedExact | cas/src/overlay.rs:456-474 | the indices agree after a rename if and only if the target has no open handle |
| Overlay.Unwritten | cas/src/overlay.rs:369-383 | a name is bound to an id without data if and only if it has an open handle and no pending write |
| Overlay.OpenedExample | cas/src/overlay.rs:260-272 | a name that was just opened is one |
| Overlay.IdOverlay.State | cas/src/overlay.rs:369-383 | a path's state is the path-keyed one |
| Overlay.IdOverlay.FilesIn | cas/src/overlay.rs:407-416 | a listing is the path-keyed one |
| Overlay.RunIds | cas/src/overlay.rs:809-868 | over every run of writes, unlinks, renames of live and committed files, opens, closes, writes through nameless handles and flushes both overlays show the same, names have the same handles, and with none open the bytes are the same |
| Overlay.BytesAgree | cas/src/overlay.rs:538-551 | with no handle open the census by id equals the count by path |
| Chunker.FindBoundary | cas/src/chunk.rs:79-103 | the cut lies behind the first byte past the minimum at which the rolling fingerprint, restarted there, has zeros under the strict mask below the target size and the loose one above; without such a byte it is the maximum if there are as many bytes, and more input is needed otherwise |
| Chunker.BoundaryCuts | cas/src/chunk.rs:79-103 | the cut that the chunking laws speak of obeys the fingerprint rule |
| Chunker.BoundaryPrefix | cas/src/chunk.rs:79-103 | a cut depends only on the bytes before it |
| Chunker.Boundaries | cas/src/chunk.rs:121-131 | the loop lists the ends of the chunks |
| Chunker.ChunksConcat | cas/src/chunk.rs:121-131 | the chunks concatenate to the input |
| Chunker.ChunkSizes | cas/src/chunk.rs:79-116 | every chunk is at most the maximum, and all but the last are above the minimum |
| Chunker.StreamChunker.Push | cas/src/chunk.rs:153-162 | a push returns the completed chunks of buffer and input and keeps the rest |
| Chunker.ChunkAll | cas/src/chunk.rs:134-171 | however the input is cut into pushes, the chunks are those of the whole input |
| FileChunks.StoreFile | cas/src/file.rs:22-41 | stores exactly the canonical content's objects |
| FileChunks.ReadBack | cas/src/file.rs:43-74 | a stored file reads back through any store that holds its objects |
| FileChunks.ListRoundTrip | cas/src/file.rs:240-414 | a chunk list reads back as itself |
| FileChunks.CommonSuffix | cas/src/file.rs:217-225 | the loop finds the longest common suffix |
| FileChunks.StoreNeighborhood | cas/src/file.rs:128-214 | re-chunking around an edit terminates with the same content as chunking the whole file, and stores nothing outside it |
| FileChunks.Resync | cas/src/chunk.rs:79-131 | two files that cut at the same point of a shared suffix agree from there on |
| Entries.EntryRoundTrip | cas/src/prolly.rs:858-1144 | every valid entry reads back, whatever follows |
| Entries.LeafRoundTrip | cas/src/prolly.rs:1168-1272 | a leaf node reads back as its entries |
| Entries.InternalRoundTrip | cas/src/prolly.rs:1168-1272 | an internal node reads back as its children |
| Prolly.SplitPoints | cas/src/prolly.rs:1392-1448 | the loop cuts at boundaries, at the cap and at the end |
| Prolly.BuildLevel | cas/src/prolly.rs:345-369 | the loop stores exactly the level's nodes; they decode to consecutive blocks of the items, and an item that is not the last ends its block if and only if the split test cuts there or it is the 128th of the block |
| Prolly.Save | cas/src/prolly.rs:411-440 | saving adds levels until one node is left, and fails exactly past 255 levels; in every level of the stored tree, as its nodes decode, an item that is not the level's last ends its node if and only if the split test cuts there or it is the node's 128th |
| Prolly.SavedCuts | cas/src/prolly.rs:411-440 | a saved level and all below it are cut where the split test says, in terms of the decoded nodes |
| Prolly.LoadSaved | cas/src/prolly.rs:442-460 | loading what was saved gives the directory back, for every split test |
| Prolly.SameRoot | cas/src/prolly.rs:411-460 | two directories have the same root if and only if they are equal |
| Tree.Lookup | cas/src/tree.rs:27-48 | the walk resolves a path as nested lookups do |
| Tree.LookupSame | cas/src/tree.rs:27-48 | a lookup needs only the nodes of the tree |
| Tree.ReachSuffices | cas/src/gc.rs:39-52 | a store that keeps the reachable objects reads every file of the tree |
| TreeEdit.PutExact | cas/src/tree.rs:53-90 | the named path reads the new entry, its parents are directories with their other fields kept, every diverging path reads as before |
| TreeEdit.UnlinkExact | cas/src/tree.rs:94-132 | nothing is left at or below the removed path, every diverging path reads as before |
| TreeEdit.OldRootStays | cas/src/tree.rs:14-19 | the old root still resolves every path as before |
| TreeEdit.PutFile | cas/src/tree.rs:53-90 | the same in terms of file contents, and all objects of the new tree are in the store |
| TreeEdit.UnlinkFile | cas/src/tree.rs:94-132 | the same in terms of file contents, and all objects of the new tree are in the store |
| EditShape.PutFails | cas/src/tree.rs:53-90 | a put into a tree in order fails if and only if it leads through a file, its entry or one of a directory made anew has no stored form, or a directory it builds needs more than 255 levels |
| EditShape.PutNew | cas/src/tree.rs:53-90 | a put stores exactly the nodes of the directories it builds: those on the way with the new entry set, and an empty one where a directory is made anew |
| EditShape.PutKeeps | cas/src/tree.rs:53-90 | a put of a readable file keeps every directory loadable and every file readable, and adds exactly its file and the directories on the way |
| EditShape.CutFails | cas/src/tree.rs:94-132 | a removal fails if and only if it leads through a file, or there is something to remove and a directory it builds needs more than 255 levels |
| EditShape.CutNew | cas/src/tree.rs:94-132 | a removal stores exactly the nodes of the directories it builds |
| EditShape.CutKeeps | cas/src/tree.rs:94-132 | a removal keeps every directory loadable and every file readable, and takes away exactly its file |
| TreeFlush.FlushTree | cas/src/store.rs:2993-3135 | the new tree reads, at every path, as overlay over old tree; the entry of a dirty file has its new size and time and keeps the flags of the committed entry; the store gains exactly the objects of the dirty files and the nodes the edits build, in the order of the sorted paths; it fails if and only if, in terms of the tree before the flush and the overlay, a directory or a file that stays is in the way of an edit, a base cannot be read, a file or a name has no stored form, or some edit builds a directory of more than 255 levels |
| Validation.ValidatedExact | cas/src/store.rs:2216-2254 | the flush of operations that all passed the check meets nothing in its way if and only if no dirty file is below another |
| Validation.UnderExample | cas/src/store.rs:2216-2254 | two writes that pass the check and cannot be flushed |
| Validation.LaterDirectory | cas/src/store.rs:2216-2254 | a write below a name and an unlink of the name both pass the check, and the write is read |
| Validation.DirRemovalExact | cas/src/tree.rs:94-132 | removing a directory changes no read if and only if there is no file in it |
| TreeFlush.ReadBase | cas/src/store.rs:3071-3095 | a dirty file's base and flags are those of the committed entry at its origin, read from the tree before the flush; it fails exactly when a directory is there or a file is on the way |
| Gc.Mark | cas/src/gc.rs:71-113 | the walk terminates with exactly the start and everything reachable, and fails only on a missing or malformed object |
| Gc.SeparatedHarmless | cas/src/gc.rs:97-98 | separated roles are enough for the walk to be exact |
| Gc.SaneMark | cas/src/gc.rs:71-113 | on the trees the engine builds the walk over several roots is exact and cannot fail |

## Left out

- Store.Store.LogThenApply: a record larger than the ring bypasses the log in the source; replay is not exact across such
  writes (History.UnloggedExact), so the model requires the record to fit.
- Store.Store.FlushRef: chunks whole files; the neighbourhood splice is proved to give the same content in
  FileChunks.StoreNeighborhood. Intermediate trees are stored together at the end, not one edit at a time.
- Store.Store.CreateRef: for new names only; History.ResetExact says what a second creation does.
- Store.Store.Snapshot: asks for a provenance, message and class that fit their fields; RefTables.TableRoundTrip says what
  happens otherwise. Edit versions are not ticked.
- Store.Store.Collect: the set of condemned hashes that a concurrent writer would consult is inert in the source and not
  modelled.
- Store.Store.Put: refuses an object of 4 GiB or more, and WriteIndexFrame an index of that size; the source would cut the
  length to 32 bits.
- Runs.FormatStore: asks for a clean log area; Format.FormatExact says what happens otherwise. A crash during format leaves
  no store.
- Format.FormatExact: speaks of mounts before the first commit; after it a run on an unclean log area is not covered.
- RenameReplay.ReplayExact: one rename and what follows it; several renames in one replayed log are not covered.
- TreeFlush.RemovePath: refuses a directory at the path. The source refuses such an unlink before logging it
  (cas/src/store.rs:2216-2254), but removes a directory that came later; Validation.DirRemovalExact says what is lost.
- TreeFlush.PutPath: refuses a directory at the path and files too long for 32-bit chunk counts.
- Overlay.IdOverlay.Write: asks for data that is applied faithfully (see Intervals.InsertExact); directory moves are not
  modelled.
- Overlay.IdOverlay.OpenForRename: for names without a tombstone; Overlay.IdOverlay.MoveCommitted covers the others.
- Renames, rollback, tags, edit versions and revocation in the engine: renames are modelled in the overlay and flush only.
- Sequence numbers and generations at their ceiling end the run.
- Going on after a failed operation without a mount, beyond the examples above; device errors.
- Hostile images and the geometry and version refusals of mount.
- BLAKE3, the gear table and the split test: a free hash, a table parameter and a function parameter.
- The index object lists its rows in the order they were added, the ref table its refs in order of creation; the source
  sorts both.
- Directory listings with sizes, mtimes of directories, operations that set flags, and the file-backed device.
