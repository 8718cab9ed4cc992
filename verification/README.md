# Verified models of the RAVENNA FPGA drivers

This project models, in Dafny 4.11, four parts of the RAVENNA FPGA driver repository and proves
what they are for.

**The stream manager** (`modules/stream-device`). Receive and transmit streams are stored under an
index, lease a range of words in a track table, and have a record in a hardware stream table.
`TrackTable` holds the first-fit allocation and the table invariant, `TrackClaims` the set of tracks
a receive stream may claim, `Weights` the counting, `StreamCommon` what both directions share, and
`Windows` what the hardware sees through the records while words and records are written one by one.
`RxStreams` and `TxStreams` give the commands add, update, delete and close as functions from a state
to a state, a result and the exact sequence of hardware writes. `StreamTables`, `RxDevice` and
`TxDevice` are the drivers themselves: classes over bitmaps and table memory, updated in place, whose
ghost `log` records every word written and whose methods are proved to do exactly what the command
functions say. `RxIsolation` and `TxWindows` are about every single write of a command; `Runs` lifts
that to runs of any step function, `RxRuns` and `TxRuns` state the results about whole runs, and
`RxLimits` and `TxLimits`, with `TableLimits`, show where the two sides reach their limits. `RxAnswers`
and `TxAnswers` say what a command answers and stores, told from the live streams alone. `TxPackets`,
with `OctetStrings`, builds the packets a transmit record describes, octet by octet, and compares their
length with the driver's.

The central invariant ties five structures together: live ranges are disjoint and inside the table;
the allocation bitmap is their union; every leased word holds its owner's track and every other word
is muted; the receive claim bitmap is the union of all active tracks, and no track is claimed twice;
a stream record is valid exactly for a live index and is then the record of the stored stream and
base. On top of it, after every single write of every run in a table the records can address: two
valid receive records never show the same track; a valid record, receive or transmit, is the record of
its stream before or after the command and shows only that stream's tracks; and the streams of other
handles keep exactly the record and routing they asked for. A command succeeds exactly if the live
streams leave room for what it asks, and then that is what is stored and routed; a failed command is
not observable. Only the owner changes a stream, and once all handles are closed nothing is left.

**Transmit timestamps and flow control** (`modules/net`). `TxTimestamps` is the protocol between
transmit, the interrupt, the worker with its unlocked window and the reset as an interleaved step
system; `TxTimestampRuns` states what holds over all runs and what one run of the worker delivers, and
`TxTimestampArrivals` what has arrived in the two rings and what waits there; `TimestampRings` is the
driver with its two 64-slot rings, refining the step system. `FlowControl` is the handshake between a
stopped queue and the space-available interrupt, statement by statement. `VlanFilter` is the VLAN
bitmap and its enable bit.

**The RTP offset synchroniser** (`go/rtp-syncer`). `RtpSyncer` has the wrap-around arithmetic with an
exact rounding theorem, and the polling loop with its drift bound.

**The PTP clock driver** (`modules/ptp`). `PtpClock` proves when adjusting is adding; `ExttsFraming`
proves the framing of external timestamp records.

Properties that turned out not to hold for all inputs are stated with their exact condition:

- Rolling back a failed resize "can't really" fail, says a comment. It fails exactly for a stream
  without channels in a table with no free word (`TrackTable.RollbackFits`), which a run of three
  commands reaches (`RxLimits.RollbackCanFail`); nothing has changed then (`RxStreams.ResizeStuck`).
- The base field of a record has 16 bits. All runs route every stream as described and keep failed
  commands unobservable exactly if the track table has at most 65536 words, on both sides
  (`RxLimits.RoutedExactly`, `RxLimits.FailedExactly`, `TxLimits.RoutedExactly`,
  `TxLimits.FailedExactly`); exactly then all runs of the receive side are isolated at every write
  (`RxLimits.IsolatedExactly`). In larger tables the results hold as long as the ranges in question
  start below 65536 or their record counts no channels (`Windows.Readable`).
- The hardware address of the secondary transmit interface is written to a 16-bit and a 32-bit field as
  if they were 32 and 16 bits wide. Its first two octets are lost; the octets in the two fields are the
  address exactly if its first four octets are zero (`TxStreams.SecondaryMacReadsBack`).
- Adjusting the clock adds delta exactly if |delta| / 10^9 is below 2^31
  (`PtpClock.AdjustIsAdd`). A large positive delta may leave 10^9 or more in the nanoseconds
  register, exactly if the two nanosecond parts carry (`PtpClock.LargeIsExact`). On the
  running clock a large step is exact only if no time passes between reading and writing it, a small
  one always (`PtpClock.RunningIsAdd`).
- The synchroniser compares each measurement with the previous one, not with the applied offset. Its
  documentation promises an update once the offset is off by more than half a sample. After a run the
  offset is within half a sample of the last measurement exactly if that measurement is within half a
  sample of the last one that differed from its predecessor by two sub-samples or more, rounded to
  samples (`RtpSyncer.UpToDateExactly`). A slow drift is not noticed: the error grows by at most one
  eighth of a sample per quiet iteration (`RtpSyncer.RunKeeps`), and at every sample rate there are
  readings of two advancing clocks that attain this (`RtpSyncer.DriftBoundIsTight`). Only the wrap of
  the 32-bit local clock is sure to end a drift (`RtpSyncer.WrapIsNoticed`).
- Records are recovered after at most 15 stray words (external timestamps) and 3 stray words
  (transmit timestamps); with more the record is not read (`ExttsFraming.Resynchronises`,
  `TxTimestamps.ResynchronisesWithin3`).

Conventions. Each section under a mutex or spinlock is one step, and a stream record is written in one
step. Register reads, FIFO words, clock readings and the outcome of writes that can fail are
parameters: `fifo(i)` is the i-th word read. Integer widths are explicit wherever they matter. The
hardware is taken not to change the tables on its own. Update returns the new base when it moved the
range and 0 otherwise, as the code does.

## Model

| member | source | states |
|---|---|---|
| `TrackTable.FirstFit` | modules/stream-device/track-table.c:8-22 | The allocation is the least base whose words are all free and inside the table, and fails only if there is none. |
| `TrackTable.FirstFitUnique` | modules/stream-device/track-table.c:13-19 | Any base that fits and has none below it that fits is the one allocated. |
| `TrackTable.FirstFitIsLowest` | modules/stream-device/track-table.c:8-22 | Told from the leased ranges instead of the bitmap: the base is the lowest one that meets no leased range and ends inside the table; there is none if allocation fails. |
| `TrackTable.SetWritesEffect` | modules/stream-device/track-table.c:24-35 | Writing a stream's tracks word by word changes exactly its range, to its tracks or to mute for negative ones. |
| `TrackTable.FreeWritesEffect` | modules/stream-device/track-table.c:37-46 | Freeing mutes exactly the range. |
| `TrackTable.GrantKeeps` | modules/stream-device/track-table.c:8-35 | Granting a range that fits keeps the table invariant: disjoint ranges, bitmap equal to their union, each word its owner's track, all others muted. |
| `TrackTable.ReleaseKeeps` | modules/stream-device/track-table.c:37-46 | Releasing an owner's range keeps the table invariant for the remaining owners. |
| `TrackTable.RewriteKeeps` | modules/stream-device/rx.c:264-269 | Writing new tracks into an owner's unchanged range keeps the table invariant. |
| `TrackTable.RollbackFits` | modules/stream-device/rx.c:229-259 | After releasing a non-empty range, first fit for the same count succeeds at a base no higher; it fails exactly for zero channels in a full table. |
| `TrackTable.ReleasedFitIsLowest` | modules/stream-device/rx.c:229-262 | The same, over the ranges of the other streams, for the allocation after an owner released its range. |
| `TrackClaims.CheckPasses` | modules/stream-device/rx.c:68-100 | The availability check passes if and only if no active track is repeated and none is claimed by another stream. |
| `TrackClaims.CheckReturns` | modules/stream-device/rx.c:68-100 | Told from the live streams: the check returns the error of the first offending channel, EBUSY for a track that another stream routes and EINVAL for one repeated in the stream itself. |
| `TrackClaims.ClaimKeeps` | modules/stream-device/rx.c:102-109 | Claiming tracks that passed the check keeps the claim bitmap equal to the union of active tracks, each routed by one channel only. |
| `TrackClaims.UnclaimKeeps` | modules/stream-device/rx.c:111-118 | Unclaiming a stream's tracks frees exactly the tracks no other stream uses. |
| `TrackClaims.ReclaimRestores` | modules/stream-device/rx.c:223-273 | Unclaiming and claiming a live stream's tracks again restores the bitmap, so a failed update leaves it as it was. |
| `Weights.UsedWeight` | modules/stream-device/track-table.c:8-46 | The number of used words is the summed channel count of the owners. |
| `Weights.ClaimedWeight` | modules/stream-device/rx.c:102-118 | The number of claimed tracks is the summed active-track count of the streams. |
| `StreamCommon.AllocIndex` | modules/stream-device/rx.c:155-160 | A new stream gets the least free index, or none if all are taken. |
| `StreamCommon.PayloadTypes` | modules/stream-device/rtp.h:6-33 | A payload type is accepted exactly if it is from 95 to 127, or 10 or 11 for 16-bit audio with two channels or one. |
| `StreamTables.FindZeroArea` | modules/stream-device/track-table.c:13-16 | The skip search over the bitmap finds the least fit, and reports failure exactly if there is none. |
| `StreamTables.Tables.constructor` | modules/stream-device/track-table.c:48-56 | Reset mutes every word and clears every record. |
| `StreamTables.Tables.Alloc` | modules/stream-device/track-table.c:8-22 | Returns the first fit and marks exactly its words. |
| `StreamTables.Tables.Set` | modules/stream-device/track-table.c:24-35 | Writes exactly the words of the range, in order, and the hardware stays the replay of its log. |
| `StreamTables.Tables.Free` | modules/stream-device/track-table.c:37-46 | Mutes exactly the words of the range, in order, and unmarks them. |
| `StreamTables.Tables.WriteCell` | modules/stream-device/track-table.h:17-22 | One word written inside the table bounds, one entry in the log. |
| `StreamTables.Tables.WriteRecord` | modules/stream-device/stream-table-rx.c:50-62 | One record written inside the table bounds, one entry in the log. |
| `Runs.RunKeeps` | modules/stream-device/main.c:60-103 | What every command keeps, every sequence of commands keeps. |
| `Runs.WritesEffect` | modules/stream-device/main.c:60-103 | If the writes of every command account for its effect on the hardware, so do those of a run. |
| `Runs.Locate` | modules/stream-device/main.c:60-103 | Every write of a run belongs to one command, and the hardware after it is the hardware before that command with some of its writes applied. |
| `Windows.MutingGuards` | modules/stream-device/track-table.c:37-46 | While a range is muted word by word no record shows a track that is not its own. |
| `Windows.SettingGuards` | modules/stream-device/track-table.c:24-35 | While tracks are written word by word into a range seen by one record only, that record shows only its own old and new tracks. |
| `Windows.RecordsGuard` | modules/stream-device/stream-table-rx.c:133-165 | Writing a record again and again keeps the guard if each valid version looks only at words that hold the stream's tracks. |
| `Windows.PlacesApart` | modules/stream-device/rx.c:229-262 | A range found for a new, moved or rewritten stream meets no other stream's range. |
| `Windows.PlacingGuards` | modules/stream-device/rx.c:229-269 | However a stream is placed (added, moved after muting its old range, rewritten in place), after every write each record shows only tracks of its own stream. |
| `Windows.ReleasingGuards` | modules/stream-device/rx.c:281-293 | The same while a range is muted under a record that is still valid and then made invalid. |
| `Windows.EitherExclusive` | modules/stream-device/rx.c:223-227 | If one stream changes and no track is routed twice before or after, none is routed twice with old and new tracks taken together. |
| `Windows.SparedAlong` | modules/stream-device/track-table.c:24-46 | Writes outside a record and its range change neither, after any number of them. |
| `Windows.LaidAlong` | modules/stream-device/stream-table-rx.c:133-152 | After any number of writes a record is as before, or invalid, or the one that is being laid down. |
| `Windows.RoutingIsWanted` | modules/stream-device/stream-table-rx.c:104-106 | What is read through a record that can describe its range is the tracks of the stream in channel order (256 channels are stored as 0). |
| `Windows.SmallIsReadable` | modules/stream-device/stream-table-rx.c:104-106 | In a table of at most 65536 words every record can describe its range. |
| `RxStreams.DetailsOf` | modules/stream-device/stream-table-rx.c:75-131 | A stream with one destination gets it in both interfaces: no valid stream has a zero address or port in its record, and a given destination is kept. |
| `RxStreams.RecordReadsBack` | modules/stream-device/stream-table-rx.c:75-152 | From the record of a valid stream its flags, channel count and base (modulo 2^8 and 2^16), its destinations in use, its codec, its filter flag and VLAN id and all other details can be read back; the hash is triggered. |
| `RxStreams.ValidExactly` | modules/stream-device/rx.c:18-66 | A stream is valid exactly if its record has no zero address or port and keeps its VLAN id, and its codec, payload type, channel count and tracks are ones there are. |
| `RxStreams.DeadRecordKeeps` | modules/stream-device/stream-table-rx.c:154-165 | A deleted record is invalid and inactive, triggers the hash, and is otherwise what it was. |
| `RxStreams.RecordWritesEffect` | modules/stream-device/stream-table-rx.c:133-152 | Invalidate, fill and activate leave exactly the live record of the stream. |
| `RxStreams.FreeStreamEffect` | modules/stream-device/rx.c:281-293 | Freeing mutes the range and leaves the record with its contents but invalid and inactive. |
| `RxStreams.InitialInv` | modules/stream-device/rx.c:358-402 | The state after probing is consistent. |
| `RxStreams.AddKeeps` | modules/stream-device/rx.c:120-187 | Adding a stream keeps all five structures in agreement, whatever its result. |
| `RxStreams.ResizeMoves` | modules/stream-device/rx.c:229-269 | Moving to a new range keeps them in agreement. |
| `RxStreams.ResizeRollsBack` | modules/stream-device/rx.c:236-259 | So does the rollback after a failed allocation. |
| `RxStreams.ResizeStuck` | modules/stream-device/rx.c:241-248 | If even the rollback allocation fails, nothing has changed. |
| `RxStreams.UpdateKeeps` | modules/stream-device/rx.c:189-279 | Updating keeps them in agreement on every path, including all refusals. |
| `RxStreams.FreeStreamKeeps` | modules/stream-device/rx.c:281-293 | Deleting a live stream keeps them in agreement. |
| `RxStreams.CloseFromRemoves` | modules/stream-device/rx.c:335-350 | Closing removes exactly the handle's streams. |
| `RxStreams.CloseFromKeeps` | modules/stream-device/rx.c:335-350 | Closing a handle keeps all five structures in agreement. |
| `RxStreams.StepKeeps` | modules/stream-device/rx.c:120-350 | Every command of every handle keeps the invariant. |
| `RxIsolation.CommandDoes` | modules/stream-device/rx.c:120-333 | Add, update and delete change at most one index: they do nothing, place one stream in a range that fits, or drop one; never a stream they do not name. |
| `RxIsolation.InvGuards` | modules/stream-device/rx.c:171-174 | In a consistent state every valid record shows only its own stream's tracks. |
| `RxIsolation.RecordWritesWithin` | modules/stream-device/stream-table-rx.c:133-152 | The three record writes never make a record valid over words that are not its stream's. |
| `RxIsolation.PutGuards` | modules/stream-device/rx.c:229-269 | After each write of placing a stream every record shows only tracks of its own stream. |
| `RxIsolation.DropGuards` | modules/stream-device/rx.c:281-293 | The same for each write of a deletion. |
| `RxIsolation.CloseGuards` | modules/stream-device/rx.c:335-350 | The same for each write of closing a handle. |
| `RxIsolation.StepGuards` | modules/stream-device/rx.c:120-350 | After every single write of any command each valid record shows only tracks its stream routes before or after the command. |
| `RxIsolation.StepIsolated` | modules/stream-device/rx.c:120-350 | After every single write of any command two different valid records never show the same track. |
| `RxIsolation.StepSpares` | modules/stream-device/rx.c:120-350 | No write of a command touches the record or a word of a stream it does not name. |
| `RxIsolation.StepRecords` | modules/stream-device/stream-table-rx.c:133-165 | After every single write of any command a valid record is the record of the stream stored at its index before or after the command. |
| `RxIsolation.StepFills` | modules/stream-device/stream-table-rx.c:133-152 | Each write that makes a record valid finds the same record, complete but invalid, and before that a cleared one; no valid record is replaced by another directly. |
| `RxIsolation.ValidLast` | modules/stream-device/rx.c:264-269 | Only the last write of a command makes a record valid, when all words are in place. |
| `RxIsolation.DropMutesFirst` | modules/stream-device/rx.c:281-293 | A deletion has muted all words of the stream before its last write makes the record invalid. |
| `RxIsolation.StepWrites` | modules/stream-device/rx.c:120-350 | The writes of a command account for its whole effect on the hardware. |
| `RxRuns.RunConsistent` | modules/stream-device/rx.c:120-350 | Every run of commands from any handles keeps the invariant. |
| `RxRuns.RunIsolated` | modules/stream-device/rx.c:223-293 | In every run in which the records can describe all ranges, after every single table write, two valid records never show the same track. |
| `RxRuns.SmallReadableAlong` | modules/stream-device/stream-table-rx.c:104-106 | In a table of at most 65536 words that is every run. |
| `RxRuns.RunGuards` | modules/stream-device/rx.c:223-293 | In every such run, after every single write, each valid record shows only tracks its stream routes before or after the command in progress. |
| `RxRuns.RunRecords` | modules/stream-device/stream-table-rx.c:133-165 | In every run, after every single write, a valid record is the record of the stream stored at its index before or after the command in progress. |
| `RxRuns.RunFills` | modules/stream-device/stream-table-rx.c:133-152 | In every run each write that makes a record valid finds the same record complete but invalid, and before that a cleared one. |
| `RxRuns.WeightsAddUp` | modules/stream-device/rx.c:281-293 | The weights of both bitmaps are the summed channel and active-track counts of the live streams. |
| `RxRuns.RoutingIsDescription` | modules/stream-device/stream-table-rx.c:75-131 | What the hardware routes for a live stream whose range its record can describe is the stream's tracks in channel order. |
| `RxRuns.FailedIsNoOp` | modules/stream-device/rx.c:211-273 | While the records can describe all ranges, a command that returns an error leaves live indices, owners, descriptions, claimed tracks and the routing seen through the hardware unchanged, even if rollback moved the range. |
| `RxRuns.RollbackLowersBase` | modules/stream-device/rx.c:229-259 | A failed update changes nothing in the stored streams but the base of its own, and that of a stream with channels only downwards. |
| `RxRuns.OnlyOwnerChanges` | modules/stream-device/rx.c:217-221 | Streams of other handles are untouched, and whatever appears or changes belongs to the calling handle. |
| `RxRuns.CloseRemovesOwn` | modules/stream-device/rx.c:335-350 | Closing a handle removes exactly its own streams. |
| `RxRuns.AllClosedIsClean` | modules/stream-device/rx.c:352-356 | Once every owning handle is closed there is no stream, both bitmaps are empty, all words are muted and no record is valid. |
| `RxRuns.DeleteUndoesAdd` | modules/stream-device/rx.c:281-333 | Deleting a stream just added restores streams, both bitmaps and the track table. |
| `RxRuns.BystanderAsDescribed` | modules/stream-device/rx.c:120-350 | After every single write of a command, record and routing of every stream it does not name are exactly that stream's description. |
| `RxRuns.Undisturbed` | modules/stream-device/rx.c:217-221 | Handles do not interfere: after every single write of any run of commands of other handles, record and routing of a stream are exactly its description. |
| `RxLimits.IsolatedExactly` | modules/stream-device/stream-table-rx.c:104-106 | All runs from the initial state are isolated at every write if and only if the track table has at most 65536 words. |
| `RxLimits.WideCollides` | modules/stream-device/stream-table-rx.c:104-106 | In every larger table a run of 513 adds after which two records show the same track. |
| `RxLimits.RoutedExactly` | modules/stream-device/stream-table-rx.c:104-106 | After all runs all streams are routed as described if and only if the table has at most 65536 words. |
| `RxLimits.FailedExactly` | modules/stream-device/rx.c:236-259 | After all runs failed commands leave the routing unchanged if and only if the table has at most 65536 words. |
| `RxLimits.FailureObserved` | modules/stream-device/rx.c:236-259 | In every larger table a run after which a failed update moves a range and so changes what is routed. |
| `RxLimits.RollbackCanFail` | modules/stream-device/rx.c:241-248 | A run of two adds after which an update and its rollback both find no room; nothing changes. |
| `RxAnswers.AddAnswers` | modules/stream-device/rx.c:120-187 | What add returns and stores, told from the live streams: the least free index, with the handle, the description and the lowest base with room, or the error of the first check that fails, and then no stream has changed. |
| `RxAnswers.AddSucceedsExactly` | modules/stream-device/rx.c:137-169 | Add succeeds if and only if the stream is valid, routes no track twice or of another stream, and an index and a range are free. |
| `RxAnswers.AddedIsRouted` | modules/stream-device/rx.c:169-174 | A stream that was added has a new index, and record and routing are exactly its description if the record can describe its range; no other stream has changed. |
| `RxAnswers.UpdateAnswers` | modules/stream-device/rx.c:189-279 | The same for update: it stores the new description under the same index, in place for an equal channel count and else at the lowest base with room once its own range is released, or returns the error of the first check that fails. |
| `RxAnswers.UpdateSucceedsExactly` | modules/stream-device/rx.c:205-262 | Update succeeds if and only if the stream is valid, the index live and owned by the handle, no track is repeated or routed by another stream, and the channel count is unchanged or there is room without its own range. |
| `RxAnswers.UpdatedIsRouted` | modules/stream-device/rx.c:264-269 | After a successful update record and routing of the stream are exactly its new description if the record can describe its range; no other stream has changed. |
| `RxAnswers.DeleteAnswers` | modules/stream-device/rx.c:295-333 | Delete removes exactly the stream named; it fails exactly for an index that is not live or not owned by the handle, with ENOENT and EACCES. |
| `RxDevice.FindUsedTrack` | modules/stream-device/track-table.h:30-40 | The next active channel, skipping exactly the negative ones. |
| `RxDevice.ValidateStream` | modules/stream-device/rx.c:18-66 | Accepts exactly the valid descriptions. |
| `RxDevice.TracksAvailable` | modules/stream-device/rx.c:68-100 | The loop over active channels gives the verdict of the first offending one, where a claimed track outranks a repeated one. |
| `RxDevice.MarkTracks` | modules/stream-device/rx.c:102-118 | Marks or unmarks exactly the active tracks of the stream. |
| `RxDevice.Rx.constructor` | modules/stream-device/rx.c:358-402 | Establishes the invariant with empty tables. |
| `RxDevice.Rx.AddStream` | modules/stream-device/rx.c:120-187 | Result, new state and the sequence of writes are those of the add command; the invariant and the isolation of the whole log are kept. |
| `RxDevice.Rx.UpdateStream` | modules/stream-device/rx.c:189-279 | The same for update with its release, reallocation and rollback. |
| `RxDevice.Rx.DeleteStream` | modules/stream-device/rx.c:295-333 | The same for delete. |
| `RxDevice.Rx.CloseHandle` | modules/stream-device/rx.c:335-350 | The same for close, visiting the indices in ascending order. |
| `TxStreams.RecordReadsBack` | modules/stream-device/stream-table-tx.c:88-180 | From the record of a valid stream its flags, channel count, base and length (modulo 2^8, 2^16 and 2^16), which interfaces are in use and how, the codec, the number of samples and all other details can be read back. |
| `TxStreams.ValidExactly` | modules/stream-device/tx.c:18-78 | A stream is valid exactly if it uses an interface, no interface in use has a zero address or port or a VLAN tag of more than 12 bits, its DSCP fits six bits, and its source, payload type, codec and tracks are ones there are. |
| `TxStreams.PrimaryMacReadsBack` | modules/stream-device/stream-table-tx.c:131-138 | The four octets of the 32-bit field and the two of the 16-bit field of the primary interface are its hardware address, in order. |
| `TxStreams.SecondaryMacReadsBack` | modules/stream-device/stream-table-tx.c:140-147 | The two octets of the 16-bit field and the four of the 32-bit field of the secondary interface are its hardware address if and only if the first four octets of the address are zero. |
| `TxStreams.RecordWritesEffect` | modules/stream-device/stream-table-tx.c:163-180 | With and without the invalidating write, the record ends as the live record of the stream. |
| `TxStreams.FreeStreamEffect` | modules/stream-device/tx.c:252-263 | Freeing mutes the range and clears the record. |
| `TxStreams.InitialInv` | modules/stream-device/tx.c:328-367 | The state after probing is consistent. |
| `TxStreams.AddKeeps` | modules/stream-device/tx.c:91-159 | Adding keeps streams, bitmap, track table and records in agreement, whatever its result. |
| `TxStreams.ResizeKeeps` | modules/stream-device/tx.c:200-244 | A resize keeps them in agreement, moved, rolled back or stuck. |
| `TxStreams.ResizeStuck` | modules/stream-device/tx.c:214-221 | If even the rollback allocation fails, nothing has changed. |
| `TxStreams.UpdateKeeps` | modules/stream-device/tx.c:161-250 | Updating keeps them in agreement on every path. |
| `TxStreams.FreeStreamKeeps` | modules/stream-device/tx.c:252-263 | Deleting keeps them in agreement. |
| `TxStreams.CloseFromRemoves` | modules/stream-device/tx.c:305-320 | Closing removes exactly the handle's streams. |
| `TxStreams.StepKeeps` | modules/stream-device/tx.c:91-320 | Every command of every handle keeps the invariant. |
| `TxWindows.CommandDoes` | modules/stream-device/tx.c:91-303 | Add, update and delete change at most one index: they do nothing, place one stream in a range that fits, or drop one; never a stream they do not name. |
| `TxWindows.StepGuards` | modules/stream-device/tx.c:91-320 | After every single write of any command each valid record shows only tracks its stream sends before or after the command. |
| `TxWindows.StepSpares` | modules/stream-device/tx.c:91-320 | No write of a command touches the record or a word of a stream it does not name. |
| `TxWindows.StepRecords` | modules/stream-device/stream-table-tx.c:163-187 | After every single write of any command a valid record is the record of the stream stored at its index before or after the command. |
| `TxWindows.StepFills` | modules/stream-device/stream-table-tx.c:163-180 | Each write that makes a record valid finds either a valid record, which an update replaces in one write, or the same record complete but invalid. |
| `TxWindows.ValidLast` | modules/stream-device/tx.c:239-244 | Only the last write of a command makes a record valid, when all words are in place. |
| `TxWindows.DropMutesFirst` | modules/stream-device/tx.c:252-263 | A deletion has muted all words of the stream before its last write clears the record. |
| `TxWindows.StepWrites` | modules/stream-device/tx.c:91-320 | The writes of a command account for its whole effect on the hardware. |
| `TxRuns.RunConsistent` | modules/stream-device/tx.c:91-320 | Every run of commands keeps the invariant. |
| `TxRuns.WeightAddsUp` | modules/stream-device/tx.c:252-263 | The weight of the allocation bitmap is the summed channel count of the live streams. |
| `TxRuns.SmallReadableAlong` | modules/stream-device/stream-table-tx.c:116 | In a table of at most 65536 words every record can describe its range in every run. |
| `TxRuns.RunGuards` | modules/stream-device/tx.c:200-244 | In every run in which the records can describe all ranges, after every single write, each valid record shows only tracks its stream sends before or after the command in progress. |
| `TxRuns.RunRecords` | modules/stream-device/stream-table-tx.c:163-187 | In every run, after every single write, a valid record is the record of the stream stored at its index before or after the command in progress. |
| `TxRuns.RunFills` | modules/stream-device/stream-table-tx.c:163-180 | In every run each write that makes a record valid finds a valid record or the same record complete but invalid. |
| `TxRuns.RunComplete` | modules/stream-device/tx.c:80-89 | That stream is acceptable and its range inside the table; the length in the record is 40 (20 IP, 8 UDP, 12 RTP as in section 5.1 of RFC 3550) plus channels times samples times sample width, and at most the packet limit. |
| `TxRuns.RoutingIsDescription` | modules/stream-device/stream-table-tx.c:88-161 | What the hardware reads for a live stream whose range its record can describe is the stream's tracks in channel order. |
| `TxRuns.FailedIsNoOp` | modules/stream-device/tx.c:186-234 | While the records can describe all ranges, a command that returns an error leaves live indices, owners, descriptions and the routing seen through the hardware unchanged. |
| `TxRuns.RollbackLowersBase` | modules/stream-device/tx.c:200-234 | A failed update changes nothing in the stored streams but the base of its own, and that of a stream with channels only downwards. |
| `TxRuns.OnlyOwnerChanges` | modules/stream-device/tx.c:194-198 | Streams of other handles are untouched, and whatever appears or changes belongs to the calling handle. |
| `TxRuns.CloseRemovesOwn` | modules/stream-device/tx.c:305-320 | Closing a handle removes exactly its own streams. |
| `TxRuns.AllClosedIsClean` | modules/stream-device/tx.c:322-326 | Once every owning handle is closed there is no stream, the bitmap is empty, all words are muted and no record is valid. |
| `TxRuns.BystanderAsDescribed` | modules/stream-device/tx.c:91-320 | After every single write of a command, record and routing of every stream it does not name are exactly that stream's description. |
| `TxRuns.Undisturbed` | modules/stream-device/tx.c:194-198 | Handles do not interfere: after every single write of any run of commands of other handles, record and routing of a stream are exactly its description. |
| `TxLimits.RoutedExactly` | modules/stream-device/stream-table-tx.c:116 | After all runs all streams send the tracks they were asked for if and only if the table has at most 65536 words. |
| `TxLimits.WideMisroutes` | modules/stream-device/stream-table-tx.c:116 | In every larger table a run of adds after which a stream does not. |
| `TxLimits.FailedExactly` | modules/stream-device/tx.c:207-234 | After all runs failed commands leave the routing unchanged if and only if the table has at most 65536 words. |
| `TxLimits.FailureObserved` | modules/stream-device/tx.c:207-234 | In every larger table a run after which a failed update moves a range and so changes what is sent. |
| `TxAnswers.AddAnswers` | modules/stream-device/tx.c:91-159 | What add returns and stores, told from the live streams: the least free index, with the handle, the description and the lowest base with room, or the error of the first check that fails, and then no stream has changed. |
| `TxAnswers.AddSucceedsExactly` | modules/stream-device/tx.c:109-141 | Add succeeds if and only if the stream is acceptable and an index and a range are free. |
| `TxAnswers.AddedIsRouted` | modules/stream-device/tx.c:143-146 | A stream that was added has a new index, and record and routing are exactly its description if the record can describe its range; no other stream has changed. |
| `TxAnswers.UpdateAnswers` | modules/stream-device/tx.c:161-250 | The same for update: it stores the new description under the same index, in place for an equal channel count and else at the lowest base with room once its own range is released, or returns the error of the first check that fails. |
| `TxAnswers.UpdateSucceedsExactly` | modules/stream-device/tx.c:178-237 | Update succeeds if and only if the stream is acceptable, the index live and owned by the handle, and the channel count is unchanged or there is room without its own range. |
| `TxAnswers.UpdatedIsRouted` | modules/stream-device/tx.c:239-244 | After a successful update record and routing of the stream are exactly its new description if the record can describe its range; no other stream has changed. |
| `TxAnswers.DeleteAnswers` | modules/stream-device/tx.c:265-303 | Delete removes exactly the stream named; it fails exactly for an index that is not live or not owned by the handle, with ENOENT and EACCES. |
| `TxPackets.SampleReadsBack` | modules/stream-device/codec.h:40-54 | Every value a linear codec can code is read back from the octets of its sample, most significant first, and their number is the sample length. |
| `TxPackets.CodeIsBits` | modules/stream-device/codec.h:24-38 | The code the hardware gets for a linear codec is its number of bits, eight times the sample length. |
| `TxPackets.PacketLength` | modules/stream-device/tx.c:80-89 | A packet built octet by octet from IPv4, UDP and RTP headers and one sample per channel and frame has exactly the length the driver calculates. |
| `TxPackets.PacketCarriesItsLength` | modules/stream-device/stream-table-tx.c:114 | A packet of an acceptable stream carries its own length in the total length field of its IP header, and has at most 1460 octets. |
| `TxPackets.AcceptedExactly` | modules/stream-device/tx.c:109-115 | A stream is accepted if and only if it is valid and its packets have at most 1460 octets. |
| `TxDevice.ValidateStream` | modules/stream-device/tx.c:18-78 | Accepts exactly the valid descriptions. |
| `TxDevice.Tx.constructor` | modules/stream-device/tx.c:328-367 | Establishes the invariant with empty tables. |
| `TxDevice.Tx.AddStream` | modules/stream-device/tx.c:91-159 | Result, new state and the sequence of writes are those of the add command; the invariant is kept. |
| `TxDevice.Tx.UpdateStream` | modules/stream-device/tx.c:161-250 | The same for update with its release, reallocation and rollback. |
| `TxDevice.Tx.DeleteStream` | modules/stream-device/tx.c:265-303 | The same for delete. |
| `TxDevice.Tx.CloseHandle` | modules/stream-device/tx.c:305-320 | The same for close. |
| `TxTimestamps.Decide` | modules/net/timestamp.c:72-135 | At least one of the two ring heads is consumed, so the warning branch of the worker is dead; a stamp is made exactly for equal PTP sequence ids, and then both are consumed. |
| `TxTimestamps.ResynchronisesWithin3` | modules/net/timestamp.c:36-63 | A record is recovered exactly if at most three words without a start marker precede it, whatever its payload words. |
| `TxTimestamps.SequenceIdReadsBack` | modules/net/timestamp.c:83-101 | The id found in a packet of Ethernet, IPv4 of any header length, UDP and PTP is the sequence id of the PTP message (octets 30 and 31, section 13.3 of IEEE 1588-2008); a packet cut before its end has none. |
| `TxTimestamps.HwTimeReadsBack` | modules/net/timestamp.c:108-112 | Seconds and nanoseconds can be read back from the delivered time if and only if it fits 64 bits. |
| `TxTimestamps.Correlate` | modules/net/timestamp.c:166-206 | One locked section moves both heads forward inside the rings and consumes something; it ends with a matching pair or with a ring empty. |
| `TxTimestamps.NextKeepsRings` | modules/net/timestamp.c:12-283 | Every step keeps both rings within 63 entries, and the history of each ring only grows. |
| `TxTimestamps.NextConserves` | modules/net/timestamp.c:137-283 | Every step moves packets between transmit, ring, worker, freed and handed back, and neither loses nor duplicates one. |
| `TxTimestamps.NextDelivers` | modules/net/timestamp.c:166-206 | Every step keeps the deliveries sound and in the order of both rings, a pair held by the worker included. |
| `TxTimestamps.NextKeeps` | modules/net/timestamp.c:12-283 | Every step of every participant keeps the whole invariant. |
| `TxTimestampRuns.ExecKeeps` | modules/net/timestamp.c:12-283 | So does every interleaving. |
| `TxTimestampRuns.PacketsConserved` | modules/net/main.c:239-382 | In every interleaving each submission of a packet is accounted for exactly once: handed back, freed, in transmit, held by the worker or waiting in the ring. |
| `TxTimestampRuns.PacketInOnePlace` | modules/net/main.c:367-382 | A packet submitted once more than it was handed back as busy is in exactly one place. |
| `TxTimestampRuns.StampsPairIds` | modules/net/timestamp.c:95-206 | In every interleaving each delivered stamp pairs equal sequence ids (section 13.3 of IEEE 1588-2008). |
| `TxTimestampRuns.StampsInOrder` | modules/net/timestamp.c:166-206 | In every interleaving no timestamp and no packet is used twice, and deliveries follow the order of both rings. |
| `TxTimestampRuns.MergeBySections` | modules/net/timestamp.c:166-206 | The pairs found by single decisions are those found section by section between unlocked deliveries. |
| `TxTimestampRuns.MergeFinds` | modules/net/timestamp.c:95-135 | With strictly increasing ids in both rings exactly the pairs with equal ids are found. |
| `TxTimestampRuns.WorkDelivers` | modules/net/timestamp.c:137-209 | An undisturbed run of the worker ends idle and delivers exactly those pairs behind the packets drained for lost timestamps. |
| `TxTimestampRuns.WorkIsComplete` | modules/net/timestamp.c:137-209 | With nothing lost and nothing arriving, one run stamps exactly the waiting packets whose id is among the waiting timestamps. |
| `TxTimestampRuns.WorkLeavesLater` | modules/net/timestamp.c:95-206 | With nothing lost and increasing ids, after one run a packet still waits exactly if every waiting timestamp had a smaller id, and a timestamp exactly if every waiting packet had. |
| `TxTimestampArrivals.ReadIsCarried` | modules/net/timestamp.c:36-58 | A record is read exactly if the FIFO carries its words behind at most three words without a start marker. |
| `TxTimestampArrivals.StampsAreRecorded` | modules/net/timestamp.c:12-70 | In every interleaving the timestamps ever stored are exactly the records the FIFO carried at the interrupts, in order. |
| `TxTimestampArrivals.PacketsAreQueued` | modules/net/timestamp.c:248-283 | In every interleaving the packets ever queued are exactly those that transmit handed over, in order. |
| `TxTimestampArrivals.IrqStores` | modules/net/timestamp.c:12-70 | After an interrupt the waiting timestamps are the old ones, without the oldest of a full ring, and then the record carried; if none was carried one more counts as lost. The packets stay. |
| `TxTimestampArrivals.QueueStores` | modules/net/timestamp.c:248-283 | After queueing the waiting packets are the old ones, without the oldest of a full ring, which is freed, and then the packet. The timestamps stay. |
| `TxTimestampArrivals.DrainBalances` | modules/net/timestamp.c:152-164 | Draining frees the oldest packets, one for each lost timestamp, until nothing is lost or nothing waits. |
| `TxTimestampArrivals.FlushEmpties` | modules/net/timestamp.c:211-246 | After a reset nothing waits and nothing is lost; what waited is freed in order, and a pair held by the worker stays. |
| `TimestampRings.Stamp` | modules/net/timestamp.c:105-114 | The delivered time is seconds times 10^9 plus nanoseconds modulo 2^64. |
| `TimestampRings.ReadRecord` | modules/net/timestamp.c:36-58 | The search loop reads the record at the first of four words with a start marker. |
| `TimestampRings.Rings.StartXmit` | modules/net/main.c:239-382 | The packet is handed back exactly if the FIFO lacks the space, and otherwise freed or queued, as one sequence of protocol steps. |
| `TimestampRings.Rings.Queue` | modules/net/timestamp.c:248-283 | Queues the packet, freeing the oldest of a full ring; slots outside the ring stay empty. |
| `TimestampRings.Rings.TsIrq` | modules/net/timestamp.c:12-70 | Stores the record that was read, dropping the oldest of a full ring, or counts it as lost. |
| `TimestampRings.Rings.DrainLost` | modules/net/timestamp.c:152-164 | Frees one waiting packet for each lost timestamp, as many as there are. |
| `TimestampRings.Rings.MatchHeads` | modules/net/timestamp.c:168-205 | One iteration consumes what the decision says; the entries counted from the modulo-64 indices strictly decrease. |
| `TimestampRings.Rings.CorrelateLoop` | modules/net/timestamp.c:166-206 | A locked section of the loop is one correlation step. |
| `TimestampRings.Rings.Work` | modules/net/timestamp.c:137-209 | The worker refines the protocol's undisturbed run. |
| `TimestampRings.Rings.Flushes` | modules/net/timestamp.c:211-246 | Reset frees every waiting packet once, empties all slots and zeroes the indices. |
| `TimestampRings.WaitingIsWrapped` | modules/net/timestamp.c:233-236 | The slots in index order hold the waiting packets, those past the wrap first. |
| `TimestampRings.RingTally` | modules/net/timestamp.c:233-236 | Each waiting packet is in the slots exactly as often as in the queue. |
| `TimestampRings.AlignedIsLeast` | modules/net/main.c:258-264 | The space a packet needs is the least multiple of four that holds it with two bytes of padding, and at least the Ethernet minimum with padding. |
| `FlowControl.NextKeeps` | modules/net/main.c:300-316 | Every statement of transmit, handler, reset, poll and configuration keeps the handshake invariant. |
| `FlowControl.NoLostWakeup` | modules/net/main.c:116-122 | In every interleaving a stopped queue has its interrupt enabled, or transmit has still to enable it, or a wake is still to be performed; the interrupt is never enabled before the level is programmed. |
| `FlowControl.QuietIsArmed` | modules/net/main.c:361-362 | With nothing in progress a stopped queue has its interrupt enabled. |
| `FlowControl.LowStopsQueue` | modules/net/main.c:300-316 | A transmit that finds the FIFO low and runs undisturbed leaves the queue stopped, the throttle flag set, the level programmed and the interrupt enabled, and nothing else changed. |
| `FlowControl.AmpleWakesUnthrottled` | modules/net/main.c:361-362 | One that finds space wakes the queue exactly if the throttle flag is not set, and changes nothing else. |
| `FlowControl.HandlerWakes` | modules/net/main.c:116-122 | The undisturbed handler disables the interrupt, clears the flag and wakes the queue. |
| `FlowControl.ResetWakes` | modules/net/main.c:384-393 | So does the undisturbed reset after a transmit timeout. |
| `FlowControl.FlagIsLastChange` | modules/net/main.c:116-122 | In every interleaving the throttle flag is set exactly if some transmit set it and no handler or reset has cleared it since. |
| `FlowControl.TransmitWakesOnlyCleared` | modules/net/main.c:361-362 | In every interleaving transmit wakes a stopped queue only if every setting of the flag was followed by a clearing. |
| `FlowControl.WakeArrives` | modules/net/main.c:384-393 | From every reachable state a bounded number of steps of the driver and its interrupt wake the queue. |
| `VlanFilter.Filter.AddVid` | modules/net/main.c:462-476 | Adds the id to the filter and sets the enable bit; other control bits stay. |
| `VlanFilter.Filter.BitmapEmpty` | modules/net/main.c:490-492 | The loop over the 128 words finds the filter empty if and only if no id is in it. |
| `VlanFilter.Filter.KillVid` | modules/net/main.c:478-497 | Removes exactly the id, and clears the enable bit exactly if none is left. |
| `VlanFilter.Filter.Perform` | modules/net/main.c:462-497 | After any sequence of add and kill the bitmap is the set of registered ids, the enable bit says whether it is non-empty, and no other control bit has changed. |
| `RtpSyncer.RoundingEighths` | go/rtp-syncer/syncer.go:36-44 | Rounding the truncated number of eighths is rounding the exact quotient half up. |
| `RtpSyncer.ToSamplesRounds` | go/rtp-syncer/syncer.go:36-44 | Conversion to samples rounds half up and wraps at 2^32. |
| `RtpSyncer.OffsetAddsBack` | go/rtp-syncer/syncer.go:61-64 | Local time plus offset gives the rounded samples modulo 2^32, also when the 64-bit subtraction wraps below zero. |
| `RtpSyncer.OffsetIsExact` | go/rtp-syncer/syncer.go:66-117 | Local time plus offset is the PTP time in samples, rounded half up, modulo 2^32, for every PTP time below 2^63 and every rate. |
| `RtpSyncer.PollKeeps` | go/rtp-syncer/syncer.go:116-130 | An iteration keeps register and offset equal, the callbacks a chain, and the drift bound. |
| `RtpSyncer.RunKeeps` | go/rtp-syncer/syncer.go:95-136 | Over every run: the register equals the last offset, each callback's old offset is the previous one's new, and after n quiet iterations the offset is off by at most 4 + n sub-samples modulo 2^35. |
| `RtpSyncer.RunFollowsJump` | go/rtp-syncer/syncer.go:95-136 | The offset after a run is that of the last measurement two or more sub-samples away from the one before it, whatever came later. |
| `RtpSyncer.UpToDateExactly` | go/rtp-syncer/syncer.go:81-136 | After a run the offset is within half a sample of the last measurement if and only if that measurement is within half a sample of the last one that jumped, rounded to samples. |
| `RtpSyncer.FailedRunIsPrefix` | go/rtp-syncer/syncer.go:119-122 | A run that ends with a failed write is the run up to the reading before. |
| `RtpSyncer.RunFailsExactly` | go/rtp-syncer/syncer.go:95-136 | The loop ends by itself if and only if some reading asks for a new offset and its write fails; readings that cannot be taken do not end it. |
| `RtpSyncer.EverySubSample` | go/rtp-syncer/syncer.go:66-77 | At a rate of at most one sub-sample per nanosecond every number of sub-samples is measured at some PTP time. |
| `RtpSyncer.DriftBoundIsTight` | go/rtp-syncer/syncer.go:116-130 | At every such rate and for every n below 2^32 readings of two advancing clocks with n quiet iterations that leave the offset 4 + n sub-samples off. |
| `RtpSyncer.WrapIsNoticed` | go/rtp-syncer/syncer.go:106-117 | With a PTP clock that does not run backwards, a wrap of the local clock makes the measurement jump, so it is evaluated. |
| `RtpSyncer.Syncer.constructor` | go/rtp-syncer/syncer.go:165-175 | A new synchroniser starts from the offset in the register, with no callback made. |
| `RtpSyncer.Syncer.Run` | go/rtp-syncer/syncer.go:95-136 | The loop does what the run function says, and ends on the first failed write. |
| `PtpClock.CorrectionIsExact` | modules/ptp/main.c:204-219 | The sign-and-magnitude register decodes to delta. |
| `PtpClock.JoinedSplits` | modules/ptp/main.c:158-187 | Splitting seconds into two 32-bit registers and joining them keeps them modulo 2^64. |
| `PtpClock.SmallIsExact` | modules/ptp/main.c:210-223 | The correction branch adds delta and leaves a normalised time. |
| `PtpClock.LargeIsExact` | modules/ptp/main.c:227-251 | The read-add-write branch adds delta; nanoseconds stay below 10^9 for negative delta, and for positive delta exactly if the nanosecond parts do not carry. |
| `PtpClock.TruncatedIsOff` | modules/ptp/main.c:235-237 | If the quotient does not fit its 32-bit variable the clock is off. |
| `PtpClock.AdjustIsAdd` | modules/ptp/main.c:194-254 | The clock after adjusting is the clock plus delta if and only if the whole seconds of delta are below 2^31 in magnitude. |
| `PtpClock.RunningIsAdd` | modules/ptp/main.c:210-251 | On the running clock a small step always adds delta, and a large one if and only if no time passes between reading and writing the clock. |
| `PtpClock.Clock.GetTime` | modules/ptp/main.c:144-173 | Reads the clock through its two halves, or reports the timeout. |
| `PtpClock.Clock.SetTime` | modules/ptp/main.c:175-192 | Writes the clock through 32-bit registers. |
| `PtpClock.Clock.AdjTime` | modules/ptp/main.c:194-254 | Adjusts as specified; fails exactly if a large step cannot read the clock, and leaves the clock alone then. |
| `ExttsFraming.EncodeDecodes` | modules/ptp/regs.h:7-22 | A record is read back from its four words. |
| `ExttsFraming.EventTimeReadsBack` | modules/ptp/main.c:356-360 | Seconds and nanoseconds can be read back from the event time if and only if it fits 64 bits. |
| `ExttsFraming.Resynchronises` | modules/ptp/main.c:336-360 | A record is read exactly if fewer stray words precede it than the search reads. |
| `ExttsFraming.RoundTrip` | modules/ptp/main.c:336-373 | Any list of records, each after fewer stray words than the search reads, is read back in order and to the last word, whatever the payload words. |
| `ExttsFraming.HandlerReadsBack` | modules/ptp/main.c:317-376 | The handler publishes exactly the encoded records in order if each comes after at most 15 stray words. |
| `ExttsFraming.HandlerLimit` | modules/ptp/main.c:336-346 | A single record is published exactly if at most 15 stray words precede it. |
| `ExttsFraming.Search` | modules/ptp/main.c:336-346 | The search loop stops behind the first start marker or after the full search. |
| `ExttsFraming.Extts.ExttsIrq` | modules/ptp/main.c:317-376 | Publishes exactly the records framed in the FIFO, in order. |
| `ExttsFraming.Extts.Show` | modules/ptp/main.c:441-457 | The PTP and RTP times shown come from one record, the last published. |

## Left out

- Probing, device tree, managed cleanup, sysfs, debugfs, ethtool, phylink, MDIO and the sync and irq modules: calls into kernel services, with only easy facts of their own.
- DMA and packet reception through NAPI: the behaviour is in kernel libraries and in the FPGA. Its wake of a stopped queue is a step of the flow-control model.
- RTCP statistics: field copying and a wait on hardware.
- Go ioctl encoders, command-line tools and sysfs clients: straight-line serialisation and I/O.
- Size, copy and version checks of the ioctls, and memory allocation failure there: single branches before any state is touched.
- Codec names: text only.
- TxPackets.SampleReadsBack: for the linear codecs; what the eight octets of an AM824 sample hold is not part of the repository.
- Byte order: addresses, ports and VLAN tags are taken in host order.
- Process-id reference counts and memory ordering: each locked section and each record write is one step.
- RxDevice.ValidateStream: the cast of the number of tracks to 16 bits is left out, because it is the identity: the device refuses more than 256 tracks when it is probed (modules/stream-device/main.c:156-160). The same for TX.
- TxDevice.ValidateStream: for channel counts of at most 256, the length of the array of tracks; the type of a stream excludes others.
- TxDevice.Tx.AddStream: for channel counts of at most 256, for the same reason.
- TxDevice.Tx.UpdateStream: for channel counts of at most 256, for the same reason.
- The rewriting of EXEC_HASH by the hardware: the flag stays set in the modelled record.
- `adjfine`, periodic output and the PPS interrupt: a clamp and register writes.
- Sequence-id wrap-around: ids are compared as numbers, as in the code; `TxTimestampRuns.MergeFinds` therefore assumes increasing ids.
- RxRuns.RunIsolated: for runs in which the 16-bit base of the records can describe all ranges; `RxLimits.IsolatedExactly` gives the tables in which these are all runs, and a failing run for all others.
- RxRuns.RoutingIsDescription: for ranges a record can describe; the exact condition is `RxLimits.RoutedExactly`.
- RxRuns.FailedIsNoOp: while the records can describe all ranges; the exact condition is `RxLimits.FailedExactly`.
- TxRuns.RoutingIsDescription: for ranges a record can describe; the exact condition is `TxLimits.RoutedExactly`.
- TxRuns.FailedIsNoOp: while the records can describe all ranges; the exact condition is `TxLimits.FailedExactly`.
- RxAnswers.AddedIsRouted: record and routing for ranges a record can describe, as above. What is stored has no such condition.
- RxAnswers.UpdatedIsRouted: the same.
- TxAnswers.AddedIsRouted: the same.
- TxAnswers.UpdatedIsRouted: the same.
- TxTimestamps.NextKeeps: the sequence id is parsed when a packet is submitted, since its data does not change while it waits, and the reset may occur at any step, also where the driver would first wait for the worker.
- TimestampRings.Rings.Flushes: discarding unread words of the timestamp FIFO is not modelled.
- RtpSyncer.Syncer.Run: timers and cancellation are left out; a run is the list of readings. For PTP times of 2^63 and more the library conversion of a negative product is undefined; the model takes it modulo 2^64, and no result about exactness depends on it.
- PtpClock.Clock.AdjTime: on a 64-bit build.
