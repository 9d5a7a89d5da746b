# Kestrel: a Dafny model of persistence, effects and data structures

Kestrel is a sharded Redis-like store. It logs the canonical effect of every write, takes
fuzzy snapshots while writes go on, and keeps its data in hand-written structures. This
project models the parts whose correctness is not visible from any one function, and
proves what they promise over every input, every interleaving or every run. Nothing here
was executed.

How the files belong together:

- `Options`, `Arith`, `Seqs`: what everything else uses.
- `Records`, `Stream`, `Replay`, `SnapshotProtocol`, `SnapshotProof`, `Recovery`: writers with ordering
  locks, the log, the shard-by-shard snapshot and the anchor-filtered replay, as one
  interleaved state machine. The effect of a shard-local command is an arbitrary partial
  function of its key's value, that of a cross-shard command an arbitrary partial function
  of the whole keyspace, so the theorem holds for every command set.
- `Unguarded`: transactions, which run without the snapshot guard, and exactly when that does
  harm.
- `CrashSafety`: that protocol together with the disk: segment files, torn bytes, rename,
  roll, unlink, recovery from whatever a crash leaves, and the next run after it.
- `DiskRecovery`: recovery's loops over the files, and what comes of it when some are missing
  or cut short.
- `LeaderRecovery`: the command handlers put into that protocol: what is recovered is the leader.
- `GroupCommit`, `GroupCommitProof`, `GroupCommitSuccess`: one log segment's group commit, with
  Go slices sharing memory and writes that copy a batch piece by piece.
- `Bytes`, `LogFile`, `Framing`, `Segment`, `Integrity`, `ByteReplay`, `Durability`: the record
  framing down to bytes, the reader, torn-tail recovery, what the checksums keep out, the bridge
  from a file's bytes to the segments recovery speaks of, and what these and group commit give
  together.
- `Commands`, `Meaning`, `Effects`, `KeyspaceOps`: commands, what each does to its keys, the
  effects they are rewritten to, lazy and active expiry under a moving clock; the store and its
  index of deadlines as an object.
- `HashTable`, `Table`, `Dict`, `ScanOrder`, `DictScan`, `DbScan`: the chained hash table with
  its overflow arena, incremental rehash, the reverse-binary cursor and SCAN.
- `SkipShape`, `Skiplist`, `ZSet`: the skiplist with spans, and sorted sets in two encodings.
- `Listpack`, `ListOps`: the byte buffer of small collections, the quicklist and lists.
- `Follower`, `Rebuild`: following the log across rolls; serializing a shard as commands.
- `RespParse`, `RespErrors`, `RespReader`: what the command decoder accepts and turns away, and the
  connection reader under any chopping of its input.
- `Glob`, `GlobMeaning`: the two pattern matchers, and what a pattern means piece by piece.

Six findings about the code are stated as lemmas rather than repaired in the model:

- `globMatch` is exact for a name if and only if the name contains no `*`
  (`Glob.GlobExact`).
- INCRBYFLOAT's rewritten effect replays if and only if the rendered result is within
  the string limit, which SET checks and INCRBYFLOAT does not
  (`Effects.IncrByFloatReplays`, `Effects.FloatTooLong`).
- GETEX reads the clock in the engine and again in the handler; its effect is faithful if
  and only if no new deadline falls between the two readings (`Effects.GetExTwoClocks`,
  `Effects.GetExApart`).
- EXEC runs its commands without the snapshot guard. Recovery is exact for every command
  set if and only if no cross-shard record lies between the snapshot's first anchor and its
  last (`Unguarded.GuardExactly`). With one, recovery may refuse to start
  (`Unguarded.RenameRefused`) or start and silently have lost acknowledged data
  (`Unguarded.FlushLoses`).
- Append checks no size and the reader does: a larger record is acknowledged, and at
  recovery it and everything after it are out of reach (`Durability.OversizeAcked`,
  `Durability.OversizeBuries`).
- A follower reads the log's offset and then asks whether the log is closed. A record
  acknowledged between the two, before a close, is never returned: it has returned everything
  if and only if nothing was acknowledged in between (`Follower.ClosedMeansDrained`,
  `Follower.ClosedEarly`).

Where code and comments differ the model follows the code. The comment on `Reader.Err` says
a damaged log wraps one of two errors; a payload that does not decode wraps neither
(`Undecodable`). The comment on `splice` says readers of the old buffer are protected; the
in-place branch overwrites it.

## Model

| member | source | states |
|---|---|---|
| `Records.ExtractKeys` | kestrel/command/server.go:274-295 | collects exactly the keys a command's key specification names, for negative and oversized last positions and non-positive steps alike |
| `Records.KeysAt` | kestrel/command/server.go:274-295 | the k-th key is the argument k steps past the first, as long as that is not past the last, where -1 names the last argument and -2 the one before it |
| `Records.ChopFlatten` | kestrel/command/replay.go:243-267 | chopping joined key groups gives the groups back, and their length is whole groups |
| `Records.FlattenChop` | kestrel/command/replay.go:243-267 | an argument list made of whole groups, chopped and joined, is the list again |
| `Records.FilteredGroups` | kestrel/command/replay.go:243-267 | running only the wanted groups of a multi-key record brings the wanted shards to where the whole record would and leaves every other shard alone |
| `Replay.Replayer.SplitKeys` | kestrel/command/replay.go:243-267 | the split record holds exactly the groups whose shard still needs it, in order; refused exactly when the record is not made of whole groups |
| `Replay.Replayer.Narrow` | kestrel/command/replay.go:199-242 | keeps, skips, splits or refuses a record as the anchors of its keys' shards say |
| `Replay.Replayer.Apply` | kestrel/command/replay.go:93-120 | the keyspace after a record is the filtered replay of it; an error leaves the keyspace unchanged |
| `Replay.ReplayLocal` | kestrel/command/replay.go:93-267 | a shard-local record replayed through any filter succeeds where the leader's did, moves exactly the wanted shards on, and leaves the others |
| `SnapshotProof.MutateEffect` | kestrel/command/dispatch.go:56-100 | a write under its ordering locks changes its own shards as its record says, given the log and its own earlier records, and no other shard |
| `SnapshotProof.AnchorExact` | kestrel/engine/snapshot.go:63-84 | an offset read while nobody holds the shard covers every record that touched it: the live shard equals the log up to that offset |
| `SnapshotProof.StepInv` | kestrel/command/dispatch.go:56-119 | every step of writers, transactions, log and snapshotter keeps the protocol's invariant |
| `SnapshotProof.RunInv` | kestrel/engine/order.go:54-101 | the invariant holds at every instant of every interleaving |
| `SnapshotProof.LiveIsLog` | kestrel/command/dispatch.go:281-318 | whenever no write is in flight, the live keyspace is what replaying the whole log builds |
| `Recovery.Restore` | kestrel/server/persistence.go:122-190 | loads the shards, installs the anchors, replays the tail; whatever the log holds, refuses one that ends before the last anchor |
| `Recovery.RestoreExact` | kestrel/command/replay.go:93-267 | for one committed snapshot: loading it and replaying the filtered tail up to any record boundary at or past the last anchor never fails and gives exactly the state of the whole log prefix |
| `Recovery.SnapshotRecovers` | kestrel/engine/snapshot.go:63-125 | the main theorem over runs: after any interleaving of ordered writes, guarded cross-shard writes, transactions and shard captures, the last snapshot and any log prefix restore to exactly that prefix's state if it reaches the last anchor and are refused if it does not, provided no cross-shard record of a transaction lies between the anchors |
| `Recovery.RestoresOrRefuses` | kestrel/server/persistence.go:173-190 | for one committed snapshot and any prefix of the log: exactly the prefix's state if it reaches the last anchor, and refused if it does not |
| `Recovery.ShortLogMixes` | kestrel/server/persistence.go:173-184 | what the refusal is for: replayed all the same, a shorter log leaves each shard at its own instant, one at the log's end, another at its anchor beyond it |
| `Recovery.RestoresLive` | kestrel/server/persistence.go:122-190 | with no write in flight, restoring from the snapshot and the whole log gives back the live keyspace |
| `Recovery.AnchorsAscend` | kestrel/persist/snapshot.go:86-108 | the anchors of a snapshot never go backwards, so the writer accepts each one |
| `Unguarded.RunExists` | kestrel/command/transaction.go:185-228 | for every command set, every good log and every ascending choice of anchors there is a run, its writes inside EXEC, that comes to exactly that log and snapshot |
| `Unguarded.QuietWindowRecovers` | kestrel/command/replay.go:199-267 | a run with transactions recovers exactly if no cross-shard record lies between the first anchor and the last |
| `Unguarded.CrossSpoils` | kestrel/command/transaction.go:185-228 | if one does, some command set and some run lose: recovery fails or gives another state |
| `Unguarded.GuardExactly` | kestrel/engine/keyspace.go:315-358 | so recovery is exact for every command set and every run that comes to a history, if and only if no cross-shard record of it lies between its first anchor and its last: what the guard EXEC does not take is for |
| `Unguarded.KeylessUnfiltered` | kestrel/command/replay.go:199-210 | a record that names no keys is replayed whole whatever the anchors say |
| `Unguarded.RenameRefused` | kestrel/command/transaction.go:215-228 | a run with RENAME in a transaction inside the window, after which recovery refuses to start |
| `Unguarded.FlushLoses` | kestrel/command/replay.go:199-210 | a run with FLUSHALL in a transaction inside the window, after which recovery starts and an acknowledged key is gone |
| `Unguarded.StraddlingRefused` | kestrel/command/replay.go:211-267 | any record past the first anchor that some of its shards have and some lack, and that is not made of key groups, makes recovery refuse the whole log |
| `CrashSafety.AdvanceInv` | kestrel/server/persistence.go:293-344 | every step of rename, roll, unlink and partial write, between any steps of the writers, and every restart keeps the files one contiguous stream that begins at or before the snapshot's first anchor and reaches its last |
| `Stream.HoldingBounds` | kestrel/persist/segments.go:80-112 | segments cut from one log pass the contiguity check, begin at the first record kept and end at the last one written |
| `CrashSafety.UnlinkInv` | kestrel/persist/segments.go:334-367 | a segment that ends at or before the snapshot's first anchor can go: what is left still reaches back far enough |
| `CrashSafety.SegsThrough` | kestrel/persist/recover.go:115-165 | recovering segment by segment, whole segments below the start skipped, equals replaying the log in one go |
| `CrashSafety.CrashAnywhere` | kestrel/persist/recover.go:115-240 | a crash after any event of any run, earlier crashes and restarts included: recovery gives exactly the state of the records whole in the files, acknowledged ones included, if and only if there is no torn tail or the policy is to truncate, and otherwise refuses |
| `CrashSafety.RestartInv` | kestrel/server/persistence.go:122-190 | a server started on what a crash left is a good start for the next run |
| `CrashSafety.AcknowledgedStays` | kestrel/persist/log.go:19-23 | an acknowledged write stays at its place in the log through every later event, crash and restart |
| `DiskRecovery.Recover` | kestrel/persist/recover.go:115-165 | the loops over the snapshot's sections, the files and their records compute the specified recovery, from any disk, one without files included |
| `DiskRecovery.Refused` | kestrel/persist/segments.go:103-111 | whatever the files hold: a gap between two, a first one that begins after the first anchor, a last one that ends before the last anchor, or a torn tail under the refuse policy is refused |
| `DiskRecovery.GapShows` | kestrel/persist/segments.go:80-112 | for files that each hold a stretch of one log, the offsets fit together exactly when no record is missing between two of them |
| `DiskRecovery.RecoversOrRefuses` | kestrel/persist/recover.go:115-165 | nothing is rebuilt with a hole in it: whatever files are left of a log, missing or cut short anywhere, recovery gives exactly the state at the end of the last one if no record it needs is missing, and refuses to start if one is |
| `DiskRecovery.LossAnywhere` | kestrel/server/persistence.go:122-190 | the same for what any run leaves at any point, with any of its files gone or cut short, and the snapshot too |
| `LeaderRecovery.RunIs` | kestrel/command/replay.go:93-160 | a logged record, run by the handlers in loading mode through its key groups, does to the keyspace what its effect does |
| `LeaderRecovery.LeaderRecovers` | kestrel/server/persistence.go:122-190 | both theorems together: a leader's snapshot and log give back exactly its values and absolute deadlines, wherever the clock then stands |
| `LeaderRecovery.LeaderSurvives` | kestrel/persist/recover.go:115-240 | the same from the disk after a crash at any point, with the leader's log in the files |
| `GroupCommitProof.NextInv` | kestrel/persist/log.go:203-340 | every event of appenders, drainers and flushes keeps accounting, buffers, waiters, durability and past replies right |
| `GroupCommitProof.GroupCommits` | kestrel/persist/log.go:203-340 | until the first failure assigned = offset + in flight + pending; the file is always a prefix of what was staged; an acknowledged frame is in the file at its offset, forced if the policy has only been always; a sync forced everything staged before it was called |
| `GroupCommitProof.InFlightIntact` | kestrel/persist/log.go:294-340 | over any number of events, until its own writer lands it a batch stays in flight and keeps its bytes, although buffers are reused |
| `GroupCommitProof.FailureIsFinal` | kestrel/persist/log.go:441-446 | after a failed write, for the rest of the run no append or sync succeeds, nothing is staged and the file never changes again |
| `GroupCommitProof.NeverStuck` | kestrel/persist/log.go:241-288 | no lost wakeup: while any call is outstanding some thread can go on |
| `GroupCommitProof.InternalMoves` | kestrel/persist/log.go:241-340 | each event of an outstanding call leaves strictly less to do and answers exactly the calls it ends |
| `GroupCommitProof.Drained` | kestrel/persist/log.go:241-318 | under every schedule, and however writes and fsyncs turn out, once no new calls arrive every outstanding call is answered after finitely many events |
| `GroupCommitSuccess.NothingRefused` | kestrel/persist/log.go:203-340 | in every run in which no write and no force fails the log stays usable and no reply is a refusal, under every policy |
| `GroupCommitSuccess.AnsweredRight` | kestrel/persist/log.go:203-288 | in such a run, however the calls interleave, a finished append is answered by the offset that was assigned to it and its frame, a finished sync by having forced at least all that had been staged when it was called |
| `GroupCommitSuccess.DrainSucceeds` | kestrel/persist/log.go:241-340 | and under every schedule in which nothing fails each outstanding call is answered by its own success, with as many replies as calls and no refusal |
| `Bytes.DecimalRoundTrip` | kestrel/persist/record.go:235-250 | a length written in decimal is read back by Atoi exactly when it fits 64 bits |
| `Bytes.LERoundTrip` | kestrel/persist/record.go:140-154 | a little-endian field gives its number back exactly when the number fits |
| `Bytes.LEFields` | kestrel/persist/record.go:140-154 | a field is written lowest byte first, of any width |
| `Bytes.Digits` | kestrel/persist/record.go:165-175 | digits counts the digits of a decimal |
| `Framing.PayloadRoundTrip` | kestrel/persist/record.go:179-250 | every argument list, whatever its bytes, is decoded from its RESP array |
| `Framing.FrameRoundTrip` | kestrel/persist/reader.go:153-215 | a record is read back from its frame, whatever follows, if and only if it has arguments, is within the size limit, and its database and kind fit two bytes |
| `Framing.FrameTorn` | kestrel/persist/reader.go:153-190 | a frame cut short anywhere reads as torn |
| `LogFile.CutAnywhere` | kestrel/persist/reader.go:153-229 | reading a stream of records cut anywhere, for any fitting reader and framing |
| `LogFile.TruncateClean` | kestrel/persist/reader.go:222-229 | whatever bytes a file holds, truncating it where the reader stopped leaves a clean file that reads the same |
| `LogFile.BuriesBelow` | kestrel/persist/reader.go:153-229 | good records followed by bytes the reader cannot get past: exactly the good records, and the stop |
| `Segment.TornTailRecovers` | kestrel/persist/recover.go:176-240 | for every list of writable records and every cut: exactly the whole records before the cut at their offsets, torn if and only if the cut is off a boundary, and a clean file after truncation |
| `Segment.HeaderRoundTrip` | kestrel/persist/record.go:105-135 | a file header is read back if and only if its fields fit, and rejected under any other magic |
| `Segment.KindsApart` | kestrel/persist/record.go:43-48 | a log is never opened as a snapshot, nor a snapshot as a log, whatever the header says |
| `Segment.EncodeRecord` | kestrel/persist/record.go:140-154 | the patched-in header and appended payload are the frame |
| `Segment.RecordSize` | kestrel/persist/record.go:157-163 | the computed size is the encoded size, for every database, kind and checksum |
| `Segment.DecodeArray` | kestrel/persist/record.go:198-232 | the loop decodes what the recursive specification decodes and rejects what it rejects |
| `Segment.LogReader.Next` | kestrel/persist/reader.go:153-215 | one record, a clean end, or the first damage, which stays; the offset moves by exactly the record's size |
| `Segment.ReplaySegment` | kestrel/persist/recover.go:176-240 | replays the readable records in order through an arbitrary handler; a stray kind or a record that does not replay stops it; damage is fatal except in the last segment under the truncate policy, which cuts to the last whole record |
| `Segment.ReplayingIs` | kestrel/persist/recover.go:187-205 | a replay goes through if and only if every record is an effect and those from the start offset on apply in order, and then gives what they give |
| `ByteReplay.FileIsSegment` | kestrel/persist/recover.go:176-205 | a log file cut anywhere is a segment of whole records and perhaps torn bytes: replaying its bytes gives what the recovery theorems say of that segment, for every applier, and ends where the segment does |
| `Durability.AckedSurvive` | kestrel/persist/log.go:19-23 | killed at any instant of any run on a new or reopened segment, the file reads as whole records and at most a torn one, and every acknowledged append is among them at the offset it was told |
| `Durability.OversizeBuries` | kestrel/persist/reader.go:172-179 | a record over the reader's size limit takes itself and everything after it out of reach |
| `Durability.OversizeAcked` | kestrel/persist/log.go:203-230 | such an append is acknowledged all the same: a run after which recovery finds nothing |
| `Integrity.ReadOnlySealed` | kestrel/persist/reader.go:172-207 | for every byte string: a record is read only if the stored field equals the checksum of the first eight bytes and the payload, and then it is what its header and payload say; a mismatch, or a size over the limit, is corrupt |
| `Integrity.AlteredFrame` | kestrel/persist/reader.go:191-195 | a frame whose other bytes were changed so that it no longer matches is corrupt, whatever follows |
| `Integrity.ChecksumAltered` | kestrel/persist/reader.go:191-195 | changing nothing but the four checksum bytes is always noticed |
| `Integrity.ContentAltered` | kestrel/persist/reader.go:191-195 | changing the database, the kind or the payload is noticed whenever the checksum function tells the bytes apart |
| `Integrity.AlteredFile` | kestrel/persist/reader.go:153-229 | a log altered inside record k, whatever has become of the bytes behind it: exactly the k records before it are read, at their offsets, and then corruption is reported |
| `Integrity.DecodeExact` | kestrel/persist/record.go:198-250 | a payload is decoded to a list of arguments if and only if it is an array of exactly them: every mark, length and line ending in place and nothing left over |
| `Integrity.HeaderOnlySealed` | kestrel/persist/record.go:116-135 | a file header is accepted only under its magic, in version 1 and matching its checksum; a mismatch is reported as corruption |
| `Integrity.HeaderAltered` | kestrel/persist/record.go:116-135 | a header with its checksum bytes changed, or others so that the checksum function tells them apart, does not open |
| `Effects.ExecReplays` | kestrel/command/string.go:281-304 | for every modelled command at any leader clock, replaying what it logged onto the state before gives the state after at any replay clock, and fails if and only if it was INCRBYFLOAT with a result over the string limit |
| `Effects.SetReplays` | kestrel/command/string.go:29-38 | SET with any options: relative expiries logged as absolute, KEEPTTL kept, conditional misses logged as nothing but the reaped key |
| `Effects.GetExReplays` | kestrel/command/string.go:357-404 | GETEX: a TTL change is logged as its absolute deadline, a past one as a deletion |
| `Effects.RenameReplays` | kestrel/command/generic.go:176-195 | RENAME and RENAMENX replay to the same source and destination with the source's deadline |
| `Effects.CopyReplays` | kestrel/command/generic.go:196-235 | COPY, across databases too, replays to the same copy and deadline |
| `Effects.ExpireReplays` | kestrel/command/generic.go:321-354 | EXPIRE and its conditions: an absolute deadline, or a deletion when it is past |
| `Effects.DelReplays` | kestrel/engine/generic.go:9-25 | DEL over keys of which some had expired: the reaped ones and the command replay to the same state |
| `Effects.LMoveReplays` | kestrel/engine/list.go:645-687 | LMOVE between lists or within one, emptied sources removed |
| `Effects.IncrByFloatReplays` | kestrel/command/string.go:458-476 | INCRBYFLOAT's SET replays if the value is of another type, does not parse, the sum is not finite, or its rendering is within the string limit; otherwise it fails |
| `Effects.FloatTooLong` | kestrel/command/string.go:458-476 | such an input: INCRBYFLOAT k 1.5 under a limit of two bytes |
| `Effects.GetExTwoClocks` | kestrel/engine/string.go:89-112 | with two clock readings GETEX is faithful if and only if no new deadline falls between them on a live string |
| `Effects.GetExApart` | kestrel/command/string.go:395-404 | such an input: GETEX k PX 10 read at 100 and again at 110 keeps the key and logs its deletion |
| `Effects.RunReplays` | kestrel/engine/keyspace.go:566-668 | over any run of commands, expiry passes, evictions and reads, under any clock, replaying the log in loading mode rebuilds values and absolute deadlines if every rendered float was within the limit when stored, and otherwise fails |
| `Effects.RecoveredReads` | kestrel/engine/keyspace.go:622-646 | after recovery every read answers as the leader would at the same clock |
| `KeyspaceOps.Keyspace.Lookup` | kestrel/engine/keyspace.go:653-668 | a writer finding a key past due removes it, keeps the deadline index exact, and logs the deletion |
| `KeyspaceOps.Keyspace.Execute` | kestrel/engine/string.go:39-318 | the imperative handlers leave the store, the deadline index and the log as the specification of the command says |
| `KeyspaceOps.Keyspace.ExpireSample` | kestrel/engine/expire.go:279-312 | goes through the deadline index in any order, stops after the sample size, and removes, logs and counts exactly the keys past due among those looked at |
| `KeyspaceOps.SampleClears` | kestrel/engine/expire.go:279-312 | a pass over the whole index leaves nothing that is past due |
| `KeyspaceOps.LeadAndRebuild` | kestrel/engine/keyspace.go:566-668 | a leader's whole life and a fresh keyspace replaying its log in loading mode: the same dictionary and the same deadline index, if and only if every stored float was within the limit |
| `Meaning.SetMeans` | kestrel/engine/string.go:39-72 | SET without naming the handler: NX stores exactly where nothing live is, XX exactly where something is; the value, and the deadline given, kept or cleared; no other slot changes |
| `Meaning.DeadlineIs` | kestrel/command/string.go:243-279 | EX n at clock t says t + 1000n, PX t + n, EXAT 1000n, PXAT n; exactly those that are positive, ahead if relative and within 64 bits are accepted |
| `Meaning.GetDelMeans` | kestrel/engine/string.go:74-87 | GETDEL removes a live string and nothing else |
| `Meaning.GetExMeans` | kestrel/engine/string.go:89-112 | GETEX keeps the value; the deadline stays, is cleared, or becomes the one given, which removes the key when it has passed |
| `Meaning.MSetMeans` | kestrel/engine/string.go:287-300 | MSET: the last value given for a key is the one it has, without a deadline, and no other slot changes |
| `Meaning.MSetNXMeans` | kestrel/engine/string.go:301-318 | MSETNX stores all if none of the keys is live, and otherwise nothing |
| `Meaning.IncrByMeans` | kestrel/engine/string.go:211-240 | INCRBY stores the rendering of old plus delta, counting from 0, and keeps the deadline; an error if the value is no integer or the sum does not fit 64 bits |
| `Meaning.IncrByFloatMeans` | kestrel/engine/string.go:241-271 | INCRBYFLOAT stores the rendering of the sum, or is an error |
| `Meaning.AppendMeans` | kestrel/engine/string.go:125-156 | APPEND stores the old bytes followed by the new ones, and keeps the deadline |
| `Meaning.PushMeans` | kestrel/engine/list.go:481-507 | pushing v1..vn by index: at the back in order, at the front in reverse, the old elements between; the X forms do nothing without a list |
| `Meaning.PopMeans` | kestrel/engine/list.go:508-530 | popping n leaves the rest by index from the other end; an emptied list is no key |
| `Meaning.LMoveMeans` | kestrel/engine/list.go:645-687 | LMOVE takes the named end of the source to the named end of the destination |
| `Meaning.RotateMeans` | kestrel/engine/list.go:645-687 | LMOVE of a list onto itself turns it, or leaves it as it is |
| `Meaning.DelMeans` | kestrel/engine/generic.go:9-25 | DEL: exactly the named keys are gone |
| `Meaning.DelCounts` | kestrel/engine/generic.go:9-25 | and its count is that of the live keys among them, each once |
| `Meaning.RenameMeans` | kestrel/engine/generic.go:64-91 | RENAME: the object with its deadline is at the destination and the source is empty; the NX form only where the destination is not live |
| `Meaning.CopyMeans` | kestrel/engine/generic.go:92-131 | COPY: the object with its deadline is at both places; without REPLACE only where the destination is not live |
| `Meaning.ExpireMeans` | kestrel/engine/expire.go:45-89 | EXPIRE: the value stays and the deadline becomes the one given, under GT only if later, LT only if earlier, NX only if there was none, XX only if there was one; a past one removes the key |
| `Meaning.OnlyThatWay` | kestrel/engine/expire.go:71-89 | GT never lowers a deadline and LT never raises one, no deadline counting as the latest |
| `Meaning.PersistMeans` | kestrel/engine/expire.go:90-112 | PERSIST clears the deadline of a live key |
| `Meaning.PeekMeans` | kestrel/engine/keyspace.go:622-646 | a read sees a live key's object and nothing else |
| `Meaning.ReapMeans` | kestrel/engine/expire.go:279-312 | active expiry removes exactly the sampled keys that are stored and past due |
| `HashTable.DropMoveShape` | kestrel/engine/dict.go:431-450 | filling an overflow hole with the last slot keeps every chain acyclic and in its bucket and every slot in exactly one chain |
| `TableOps.Table.Insert` | kestrel/engine/dict.go:324-335 | a new key joins its bucket; contents, chains and index follow |
| `TableOps.Table.Remove` | kestrel/engine/dict.go:349-430 | removing from the head or the overflow keeps chains and contents, and says whether the key was there |
| `TableOps.Table.DropOverflow` | kestrel/engine/dict.go:431-450 | the overflow arena stays dense; contents are unchanged |
| `Dict.Dict.Set` | kestrel/engine/dict.go:280-300 | the abstract map gains the key, in the middle of a rehash too; true exactly when it is new |
| `Dict.Dict.Get` | kestrel/engine/dict.go:217-256 | reads the abstract map across both tables |
| `Dict.Dict.Delete` | kestrel/engine/dict.go:336-348 | the abstract map loses the key, in the middle of a rehash too; true exactly when it was there |
| `Dict.Dict.GrowIfFull` | kestrel/engine/dict.go:454-458 | a rehash to twice the size starts exactly when none is running and there are as many keys as buckets |
| `Dict.Dict.ShrinkIfSparse` | kestrel/engine/dict.go:460-468 | one to half the size starts exactly when none is running, the table is above the minimum and fewer than an eighth of its buckets are used |
| `Dict.Dict.RehashBuckets` | kestrel/engine/dict.go:507-542 | moves buckets without changing the map and makes the given progress, or finishes |
| `Dict.Dict.RehashToEnd` | kestrel/engine/dict.go:496-542 | every rehash ends after at most size + 1 steps |
| `Dict.Dict.ForEach` | kestrel/engine/dict.go:664-681 | every key exactly once with its value, in the middle of a rehash too |
| `TableOps.Table.ForEach` | kestrel/engine/dict.go:664-681 | heads and then the arena list one table's entries, each once |
| `ScanOrder.NextIs` | kestrel/engine/dict.go:651-657 | the reverse-binary increment is adding one to the bit-reversed bucket number |
| `ScanOrder.TwoTables` | kestrel/engine/dict.go:566-594 | every reversed hash up to the next cursor lies in the small bucket and in its run in the large table, and the reversed cursor moves on |
| `DictScan.Scan` | kestrel/engine/dict.go:566-594 | one call emits only entries of the dict, every entry between the two cursors, and moves the reversed cursor on unless it has finished |
| `DictScan.ScanFindsAll` | kestrel/engine/dict.go:566-594 | a key present for a whole iteration is emitted at least once, however the dict is resized or rehashed between calls |
| `DictScan.ScanEnds` | kestrel/engine/dict.go:651-657 | no chain of calls is longer than 2^w, whatever happens to the dict between them, so it ends by returning 0 |
| `DbScan.PackRoundTrip` | kestrel/engine/generic.go:238-241 | shard index and bucket cursor come back from the packed cursor |
| `DbScan.Scan` | kestrel/engine/generic.go:231-280 | a call returns only kept keys, every kept key it passes, always progresses, and returns 0 only when every shard is finished |
| `DbScan.WalkFindsAll` | kestrel/engine/generic.go:231-280 | a live matching key resident throughout is returned at least once over the whole walk, whatever the filters reject |
| `SkipShape.InsertLinked` | kestrel/engine/skiplist.go:82-132 | Insert's writes leave every link leading to the next node tall enough, with its span the distance, trailing links included, for any height |
| `SkipShape.DeleteLinked` | kestrel/engine/skiplist.go:152-171 | unlink's writes do the same with the node gone |
| `Skiplist.Skiplist.Insert` | kestrel/engine/skiplist.go:82-132 | the chain stays strictly sorted with the key at its place; links, spans, back pointers and tail stay right |
| `Skiplist.Skiplist.Delete` | kestrel/engine/skiplist.go:135-171 | removes exactly the key if it is there, else changes nothing |
| `Skiplist.Skiplist.Rank` | kestrel/engine/skiplist.go:174-187 | the 1-based position in the sorted chain, 0 exactly when absent |
| `Skiplist.Skiplist.NodeByRank` | kestrel/engine/skiplist.go:198-214 | the node at a rank, nil outside; the inverse of Rank |
| `Skiplist.Skiplist.FirstNot` | kestrel/engine/skiplist.go:255-270 | the lowest node past a downward-closed bound |
| `Skiplist.Skiplist.LastThat` | kestrel/engine/skiplist.go:273-287 | the highest node within it |
| `Skiplist.Skiplist.FirstInRange` | kestrel/engine/skiplist.go:255-270 | the lowest node between two bounds, nil if and only if there is none, empty ranges included |
| `Skiplist.Skiplist.LastInRange` | kestrel/engine/skiplist.go:273-287 | the highest one |
| `ZSet.BeforeTotal` | kestrel/engine/skiplist.go:73-78 | score then member bytes is a strict total order |
| `ZSet.ScoreLessIs` | kestrel/engine/skiplist.go:73-78 | scores compare as numbers, with the infinities at the ends |
| `ZSet.BeforeIs` | kestrel/engine/skiplist.go:73-78 | a key is before another exactly if its score is lower, or the scores are equal and its member has the lower byte where the two first differ or is a prefix |
| `ZSet.LpSearch` | kestrel/engine/zset.go:91-100 | bisection finds where a key belongs in the sorted flat form |
| `ZSet.Add` | kestrel/engine/zset.go:117-149 | in either encoding the map gains the score; new exactly when absent; promotion happens exactly past the thresholds and keeps the contents |
| `ZSet.Remove` | kestrel/engine/zset.go:169-185 | in either encoding the map loses the member |
| `ZSet.ScoreOf` | kestrel/engine/zset.go:103-114 | the score the map gives, in either encoding |
| `ZSet.Rank` | kestrel/engine/zset.go:189-208 | the position of the member in the one sorted order, from either end, in either encoding |
| `ZSet.Promote` | kestrel/engine/zset.go:151-166 | promotion preserves contents at any heights; skiplist and map agree |
| `ZSet.OneOrder` | kestrel/engine/zset.go:377-394 | the sorted keys are determined by the map, so both encodings rank alike |
| `Glob.MatchPattern` | kestrel/engine/glob.go:9-63 | decides exactly what the pattern's tokens mean: stars, any byte, classes with ranges, negation and escapes, literals |
| `Glob.MatchClass` | kestrel/engine/glob.go:69-104 | where a class ends and whether a byte is in it, unterminated classes included |
| `Glob.GlobMatchLoop` | kestrel/config/spec.go:244-270 | the loop is its specification, which returns only to its last star |
| `Glob.GlobAgrees` | kestrel/config/spec.go:244-270 | for a name without a star, remembering one star equals full backtracking, for every pattern |
| `Glob.GlobExact` | kestrel/config/spec.go:244-270 | it equals full backtracking for every pattern if and only if the name contains no star |
| `GlobMeaning.StarMeans` | kestrel/engine/glob.go:9-26 | `*` takes any run of bytes |
| `GlobMeaning.QuestionMeans` | kestrel/engine/glob.go:27-28 | `?` takes exactly one byte, whatever it is |
| `GlobMeaning.OrdinaryMeans` | kestrel/engine/glob.go:44-49 | any byte without a meaning of its own takes itself |
| `GlobMeaning.EscapeMeans` | kestrel/engine/glob.go:36-43 | a backslash makes the next byte take itself, and takes a backslash at the end of the pattern |
| `GlobMeaning.ClassMeans` | kestrel/engine/glob.go:69-104 | a class written with escaped bytes, bytes and ranges either way round takes one byte, one that some member takes, or after `^` one that none takes |
| `GlobMeaning.OpenClassMeans` | kestrel/engine/glob.go:69-85 | a class that is never closed is the rest of the pattern |
| `GlobMeaning.SimpleMeans` | kestrel/config/spec.go:243-270 | in CONFIG GET `*` takes any run, `?` any byte, and every other byte itself |
| `RespParse.CommandWhole` | kestrel/resp/reader.go:157-205 | a command within the limits at the front of the input is decoded exactly, with its exact length, whatever follows |
| `RespParse.CommandPrefix` | kestrel/resp/reader.go:157-205 | every strict prefix of one is incomplete, never an error |
| `RespParse.ParseInt` | kestrel/resp/reader.go:226-255 | at most twenty characters, an optional sign, and a value within 64 bits, or nothing, overflow included |
| `RespReader.ParseMultiBulk` | kestrel/resp/reader.go:157-205 | the position loop decodes, waits or rejects as the recursive specification does |
| `RespReader.AppendInt` | kestrel/resp/math.go:23-46 | the digits filled backwards into the fixed array are the number's decimal |
| `RespReader.EncodeCommand` | kestrel/resp/math.go:9-21 | appends the encoding that the decoder reads |
| `RespReader.Reader.Fill` | kestrel/resp/reader.go:113-145 | compaction and growth lose nothing; a read adds at least one byte; the limit is reported only by a full buffer of that size |
| `RespReader.Reader.ReadCommand` | kestrel/resp/reader.go:91-110 | the first command that is not empty, whatever the chopping, and the stream left is the rest |
| `RespReader.RealIs` | kestrel/resp/reader.go:91-110 | of the commands that come out none is empty, and where none was sent empty all of them do |
| `RespReader.RealConcat` | kestrel/resp/reader.go:91-110 | and they come out in order, whatever lies between |
| `RespReader.ReadToEnd` | kestrel/resp/reader.go:91-145 | for every list of commands within the limits and every way of chopping their encodings into reads, exactly the non-empty ones come out, in order |
| `RespErrors.BulkRefused` | kestrel/resp/reader.go:180-196 | a bulk string without its mark or with a length over the limit is an error |
| `RespErrors.EndingRefused` | kestrel/resp/reader.go:196-203 | a bulk string not followed by CRLF is an error |
| `RespErrors.CountRefused` | kestrel/resp/reader.go:157-178 | a command of more elements than the limit is an error |
| `RespErrors.CommandRefused` | kestrel/resp/reader.go:157-205 | an element that is an error makes the command one, whatever came before and whatever follows |
| `RespErrors.SignedIs` | kestrel/resp/reader.go:226-255 | a decimal of 64 bits is read with its sign, and a sign alone or nothing is no integer |
| `RespErrors.NotInteger` | kestrel/resp/reader.go:226-255 | more than twenty characters, or a character that is no digit and no leading sign, is no integer |
| `RespErrors.CommandSound` | kestrel/resp/reader.go:157-205 | whatever the bytes, a decoded command is within the limits and its arguments stand in what was consumed, in order, each followed by CRLF |
| `Follower.FollowsExactly` | kestrel/persist/follow.go:71-166 | across any interleaving of appends, partial writes, rolls and prunes, what a follower has read out of the files it opened is exactly the acknowledged records from where it began, its offset is where the next one starts, and it never takes a record being written for damage |
| `Follower.ReadsNext` | kestrel/persist/reader.go:106-136 | the position offset - base in the open file is a record boundary, and what is read there is the log's next record, or the end of a file that has been read out |
| `Follower.SegmentForIs` | kestrel/persist/follow.go:71-93 | the segment a seek chooses contains the offset, and the next record if there is one |
| `Follower.NoLostWakeup` | kestrel/persist/follow.go:109-137 | a follower asleep with a record past its position can rise, or an append still owes it the wakeup |
| `Follower.GetsNearer` | kestrel/persist/follow.go:141-166 | with a record past its position each of its steps returns the record, ends because it is pruned or the log was closed while it asked, or brings it strictly nearer |
| `Follower.SoonRead` | kestrel/persist/follow.go:109-166 | under every interleaving, a follower that is behind returns the next record, or is told it is pruned when its offset does lie below the oldest retained file, before it has taken more than nine steps of its own; only one that had already asked can be told instead that the log is closed |
| `Follower.NeverLost` | kestrel/persist/follow.go:75-79 | a follower is never told its record is gone as long as every prune leaves the file holding its offset, in particular where nothing is pruned |
| `Follower.SoonReturned` | kestrel/persist/follow.go:109-166 | so then a follower that is behind, and not just asking whether the log is closed, returns its next record within nine of its own steps |
| `Follower.GoneMeansPruned` | kestrel/persist/follow.go:71-93 | a file is found gone only if it was retained at the seek that chose it and pruned between that seek and the opening |
| `Follower.ClosedMeansDrained` | kestrel/persist/follow.go:109-128 | a follower is told the log is closed only once it is, and has then returned everything acknowledged when it last looked; that is everything there is if and only if nothing was acknowledged between that look and the close |
| `Follower.ClosedEarly` | kestrel/persist/follow.go:111-123 | such a run: a record acknowledged between the look at the offset and the question whether the log is closed is never returned |
| `Follower.CanGoOn` | kestrel/persist/segments.go:251-280 | it can always take a step, or is owed the wakeup that lets it |
| `Rebuild.Chunked` | kestrel/command/snapshot.go:149-171 | for every batch size the pieces join to the elements, each but the last is as long as the batch allows, none is empty, and none splits a pair |
| `Rebuild.PerIs` | kestrel/command/snapshot.go:149-160 | a piece holds as many whole members as the batch allows, and at least one |
| `Rebuild.PiecesLoad` | kestrel/command/snapshot.go:149-171 | loading the pieces one after the other builds the collection |
| `Rebuild.EntryCommands` | kestrel/command/snapshot.go:110-143 | an empty collection is refused; any other key is rebuilt by its commands, deadline included |
| `Rebuild.WriteShard` | kestrel/command/snapshot.go:110-171 | a shard listed in any order and serialized in any batch size loads into an empty shard with the same values and deadlines |
| `Rebuild.SnapshotShard` | kestrel/engine/snapshot.go:63-124 | the same from the shard's own hash table, walked while it is rehashing or not |
| `Listpack.VarintRoundTrip` | kestrel/engine/listpack.go:63-76 | a length prefix is read back with its width, whatever follows |
| `Listpack.VarintShape` | kestrel/engine/listpack.go:63-76 | a length prefix is base 128, lowest digit first, the top bit set on every byte but the last, with no needless byte |
| `Listpack.PackReplace` | kestrel/engine/listpack.go:179-204 | replacing a run of entries replaces exactly their bytes |
| `Listpack.Listpack.Splice` | kestrel/engine/listpack.go:179-204 | the in-place and the reallocating branch both leave the bytes outside the range and the new ones between |
| `Listpack.Listpack.Locate` | kestrel/engine/listpack.go:63-76 | offset, payload length and header size of an entry, -1 exactly when out of range |
| `Listpack.Listpack.InsertAt` | kestrel/engine/listpack.go:105-118 | the buffer stays the packing of the entries with the new one at its place, at an end when the index is outside |
| `Listpack.Listpack.SetAt` | kestrel/engine/listpack.go:121-129 | the entry replaced, longer or shorter |
| `Listpack.Listpack.DeleteRun` | kestrel/engine/listpack.go:144-155 | the run removed, clipped at the end |
| `Listpack.Listpack.Truncate` | kestrel/engine/listpack.go:158-168 | the first entries kept |
| `Listpack.Listpack.IndexOfStep` | kestrel/engine/listpack.go:244-254 | the first match at a position of the given residue, -1 exactly when there is none |
| `ListOps.Quicklist.InsertAt` | kestrel/engine/list.go:132-168 | the sequence with the element inserted; no node empty, none above twice the fill, after a split too |
| `ListOps.Quicklist.DeleteAt` | kestrel/engine/list.go:120-130 | the sequence without the element, an emptied node dropped |
| `ListOps.List.Push` | kestrel/engine/list.go:245-260 | the sequence grows at the right end in either encoding; the flat one is kept exactly while both thresholds are met |
| `ListOps.List.Pop` | kestrel/engine/list.go:263-282 | the end element and the sequence without it |
| `ListOps.List.Insert` | kestrel/engine/list.go:344-366 | beside the first occurrence of the pivot, or -1 and no change |
| `ListOps.DeleteStrips` | kestrel/engine/list.go:370-394 | deleting the chosen places from the back is removing exactly the occurrences with those numbers |
| `ListOps.List.Remove` | kestrel/engine/list.go:370-394 | the first, the last or all occurrences gone as the sign of the count says, and how many |
| `ListOps.List.Trim` | kestrel/engine/list.go:405-416 | what is left is the inclusive range the two signed indices name |
| `ListOps.List.Range` | kestrel/engine/list.go:324-341 | the same range, read |
| `ListOps.BetweenIs` | kestrel/engine/list.go:324-341 | the range is exactly the elements at positions not before the start and not after the stop, each counted from the end if negative |
| `ListOps.RemovedFront` | kestrel/engine/list.go:370-394 | a positive count takes every occurrence, and nothing else, out of a front that holds as many as asked, or all; the back stays |
| `ListOps.RemovedBack` | kestrel/engine/list.go:370-394 | a negative one does so at the back, and zero in the whole list |

## Left out

- Cross-shard commands inside MULTI/EXEC are steps of the snapshot protocol, with `Unguarded.GuardExactly` as the exact condition; `CrashSafety` and `LeaderRecovery` leave them out (`exec` is false).
- Eviction and active expiry as steps of the snapshot protocol: they are events of the effect model, where their effects are shown to replay.
- A log append that fails during a write: the protocol assumes staged records are flushed; the segment model covers write and fsync failures.
- Machine crashes under everysec: a crash stops the process, and bytes handed to the operating system survive; group commit additionally tracks what has been forced.
- Creating a segment file and its header is one step; a crash between them, which leaves a file `Segments` refuses, is not modelled.
- Failed unlinks: every unlink that runs succeeds, one after the other.
- Legacy log adoption, `Reset`, and resynchronisation from a leader: a replica whose log is too short is refused like any other server.
- Bytes found in a segment when it is opened count as forced.
- CRC-32C, xxhash and float rendering are parameters; rendering followed by parsing is the identity where it is used.
- `hash & mask` is written as the remainder by the table size, and cursors are numbers of w bits instead of machine words.
- Dict.Dict.Set: requires fewer entries than the largest table size, because the program's table sizes stop at 2^31.
- Effects.GetExReplays: one clock reading per command; `Effects.GetExTwoClocks` is the exact condition for two.
- Replies: of what a command answers only whether it is an error, and DEL's count, is modelled.
- Parsing of command options and their spelling; hash, set and stream commands; SETRANGE.
- ZSet.Add: the three-pointer struct is a value that operations take and return, its flat form the entries of a listpack and its member index a map, which `Listpack.Listpack` and `Dict.Dict` refine; the skiplist behind it is updated in place.
- Durability.AckedSurvive: requires records within the reader's limit; `Durability.OversizeAcked` shows what happens to others.
- RespReader.Reader.ReadCommand: returns copies; that arguments alias the buffer until the next call is not modelled. Inline commands are decoded by a parameter.
- Follower.FollowsExactly: requires a start at a record boundary, as the program promises; an offset in the middle of a record is not covered.
- ListOps.Quicklist.InsertAt: a node is its listpack's entries, which `Listpack.Listpack` implements in bytes; LPOS is left out.
- Listpack.Listpack.Locate: lengths beyond 64 bits, which the varint decoder rejects, cannot occur in memory and are not excluded.
- Memory accounting, LFU and LRU sampling, random members, Pub/Sub, ACL, TLS, INFO, configuration files.
