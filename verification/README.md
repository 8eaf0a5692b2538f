# Aindrive agent: model and proofs

A Dafny model of the state-bearing parts of the local agent, and proofs of what each of them
keeps over whole runs. `dafny verify dfyconfig.toml` checks everything.

| part | modules | code |
|---|---|---|
| Willow log, compaction, gossip | `WillowLog`, `WillowStore`, `WillowGossip`, `WillowReads`, `WillowCut`, `WillowExample` | `cli/src/willow-store.js`, `cli/src/willow-sync.js` |
| ZIP writer, reader and plan | `Crc32`, `Records`, `ZipFormat`, `ZipBuffers`, `ZipWriter`, `ZipPlan`, `ZipFolder` | `cli/src/zip-folder.js` |
| Live credential rotation | `Rotation` | `cli/src/rotation.js`, `cli/src/agent.js` |
| Process supervisor | `Supervisor` | `desktop/src/agents.js` |
| Git stream flow control | `GitStream` | `cli/src/git-exec.js` |
| Claiming a request among hosts | `Claiming` | `cli/src/afan-bridge.js` |
| Canonical form of signed frames | `Canonical`, `JsonReader` | `cli/src/sig.js` |
| Per-file write chain | `WriteChain` | `cli/src/rpc.js` |
| Porcelain-v2 parser | `StatusV2` | `cli/src/rpc.js` |

Operations that update state are methods, on a class where the source has an object, each proved
equal to a function on values; the properties of whole runs are lemmas about those functions. What
the code takes from outside enters as parameters with stated laws: the merge of Y.js updates, the
payload hash, deflate with its inverse and size bound, the MAC. Networks, clocks, crashes and child
processes are events that may come in any order.

Four promises do not hold of the code as it is. Each has a concrete case in which it fails, and the
exact condition under which it does hold:

* A read of a document does not always show everything the device holds: a gossiped snapshot can hide
  local rows (`WillowReads.GossipedSnapshotHides`), and no later check need bring them back
  (`WillowReads.SnapshotsStayHidden`). Reads stay complete over a run exactly when every give, as it is
  stored, brings no snapshot or covers the log with its newest one (`WillowReads.ReadsCompleteIff`); a
  check restores them exactly when a threshold is met (`WillowReads.GossipReadRestored`).
* Gossip does not always bring two devices together: a row past the newest 100 is never offered.
  `WillowCut.LogsThatNeverAgree` is a run after which one device does not learn an update the other holds
  until the holder compacts it (`WillowCut.CutUpdateNeverArrives`).
  One exchange brings them together exactly under `WillowGossip.ExchangeAgreesIff`.
* The caps on a folder archive do not bound its entries, because empty folders are not counted
  (`ZipFolder.EmptyFoldersUncapped`). Within the caps, and with names that fit, an archive fits exactly
  when its plan lists at most 65535 entries (`ZipFolder.FolderFitsIff`).
* A file need not keep the last data written to it successfully: a later write that truncates it and then
  fails leaves it damaged (`WriteChain.FailedWriteClobbers`). It keeps them exactly when what later writes
  left in the file, if anything, is the same data (`WriteChain.LastSuccessStaysIff`).

That the laws assumed of the merge and the hash can be met, and the premises of the two Willow runs with
them, is shown on an example encoding in `WillowExample`.

Where the code and its comments differ the code is followed: `cli/src/sig.js:10-14` says that nested
keys serialise in insertion order, but JSON.stringify with a property list prints every object's
members in the order of the list (section 25.5.2 of ECMA-262), and drops nested members that are not
named in it. `cli/src/zip-folder.js:7-8` says that the byte cap keeps every count in its field; it
keeps the sizes and offsets there, not the number of entries.

## Model

| member | source | states |
|---|---|---|
| WillowStore.Store.AppendUpdate | cli/src/willow-store.js:133-176 | a write adds one row after the last, numbered one past the highest number and carrying its payload's hash; no other document changes |
| WillowStore.PutRows | cli/src/willow-sync.js:97-103 | replacing the rows of one document touches no other |
| WillowStore.Store.ListEntries | cli/src/willow-store.js:187-198 | the rows a read replays: from the newest snapshot on, or all of them when there is none |
| WillowStore.Store.CompactToSnapshot | cli/src/willow-store.js:209-240 | one snapshot row remains, numbered past every row it replaces |
| WillowStore.Store.Replay | cli/src/willow-store.js:313-319 | replaying rows one by one gives the join of what they denote |
| WillowStore.Store.UpdateStats | cli/src/willow-store.js:297-309 | count and bytes are the totals over the update rows, as `WillowLog.UpdatesConcat` and `WillowLog.UpdatesOne` fix them, and the age test ranges over them alone |
| WillowLog.UpdatesConcat | cli/src/willow-store.js:297-302 | the count and the bytes of two stretches of rows are the sums of theirs |
| WillowLog.UpdatesOne | cli/src/willow-store.js:297-302 | an update row counts one and its payload's length, a snapshot row nothing |
| WillowLog.CheckExactly | cli/src/willow-store.js:280-329 | a check replaces the rows by one snapshot of all of them exactly at 50 updates, 1 MiB of update payload or an update ten minutes old, and otherwise leaves them alone |
| WillowLog.LastSeqHighest | cli/src/willow-store.js:137-139 | the last number is the highest one, 0 for no rows |
| WillowStore.Store.MaybeCompact | cli/src/willow-store.js:289-329 | compacts exactly when a threshold is met, replaying all rows; after a check that runs, fewer than 50 updates and under 1 MiB of update payload remain |
| WillowStore.Store.YjsWrite | cli/src/rpc.js:598-608 | after every write whose check runs, fewer than 50 update rows and under 1 MiB of update payload remain |
| WillowStore.Store.YjsRead | cli/src/rpc.js:614-627 | the encoding of the join of the visible rows; nothing for an empty log |
| WillowStore.Store.BuildSummary | cli/src/willow-sync.js:39-54 | every document with rows, its last number and its newest digests, at most 100, newest first |
| WillowStore.SummaryExactly | cli/src/willow-sync.js:41-52 | a document is in the summary exactly when it has rows; the digests in it are those of its newest hundred rows and no others |
| WillowLog.NewestMore | cli/src/willow-sync.js:47-49 | a new row comes first in the summary and pushes the hundredth out |
| WillowStore.Store.DigestsWeMissFrom | cli/src/willow-sync.js:56-69 | for each offered document the offered digests not held, in order; documents with none are not asked for |
| WillowStore.WantsExactly | cli/src/willow-sync.js:60-66 | a digest is asked for exactly when it is offered and no row of the document has it |
| WillowLog.MissingConcat | cli/src/willow-sync.js:64 | what is missing of two offers is what is missing of each, in order |
| WillowLog.PicksOne | cli/src/willow-sync.js:64-100 | of one digest, row or entry: taken when not held, asked for or new, and an entry keeps all but its number |
| WillowStore.Store.FulfillWant | cli/src/willow-sync.js:71-86 | the held rows whose digest is asked for |
| WillowLog.FulfilledConcat | cli/src/willow-sync.js:74-77 | rows asked for are picked in their order, every one of them |
| WillowStore.Store.ApplyGive | cli/src/willow-sync.js:88-110 | only entries not held before are inserted, after the last row with consecutive numbers, their kind kept; `applied` counts them |
| WillowLog.FreshConcat | cli/src/willow-sync.js:97-101 | entries are inserted in their order, each numbered after those before it |
| WillowLog.GivenAdds | cli/src/willow-sync.js:88-110 | a give adds exactly the digests and the state of its entries to the log |
| WillowLog.GiveIsIdempotent | cli/src/willow-sync.js:92-105 | applying the same give again inserts nothing |
| WillowLog.CompactionKeepsState | cli/src/willow-store.js:289-329 | a compaction keeps the joined state and the number order, and makes the whole state visible |
| WillowLog.GiveReadIff | cli/src/willow-sync.js:88-110 | a give to a log whose reads are complete keeps them so exactly when it inserts no snapshot, or the rows from its newest inserted snapshot on cover the log and the other rows it inserts |
| WillowLog.CheckRestoresIff | cli/src/willow-store.js:289-329 | a check leaves reads complete exactly when they were or a threshold is met |
| WillowLog.RestoredInTime | cli/src/willow-store.js:297-311 | while the log holds an update row every check from some moment on restores reads; a log of snapshots alone is never compacted |
| WillowGossip.DigestsDetermineState | cli/src/willow-sync.js:39-69 | two logs with the same digest set have the same joined state |
| WillowGossip.PullGains | cli/src/willow-sync.js:39-110 | a summary, want and give in one direction adds exactly the digests the summary offers |
| WillowGossip.PullRuns | cli/src/willow-sync.js:113-154 | in any run, a summary, the want and the give it leads to leave the one log exactly as the pull says and the other as it was; none is sent when nothing is missing |
| WillowGossip.SmallLogsConverge | cli/src/willow-sync.js:39-110 | two devices with at most 100 rows between them end one exchange in each direction in turn with the same digests and state, those of both, and a further round asks for nothing |
| WillowGossip.DevicesConverge | cli/src/willow-sync.js:113-154 | after any run, two devices with at most 100 rows of a document between them come by at most eight announcements and frames to the same digests and state, those of both |
| WillowGossip.CrossedLogsConverge | cli/src/willow-sync.js:39-110 | the same when both summaries are sent before either give arrives, with at most 100 rows on each device |
| WillowGossip.ExchangeAgreesIff | cli/src/willow-sync.js:23-110 | without the bound, two devices agree after an exchange in turn exactly when each already holds what the other's summaries cut off |
| WillowGossip.CrossedExchangeAgreesIff | cli/src/willow-sync.js:23-110 | the same condition when both summaries are sent before either give arrives |
| WillowCut.CutDigestNeverArrives | cli/src/willow-sync.js:46-110 | a row past the newest 100 of a device reaches one without it in no number of rounds of pulls both ways, however both logs grow meanwhile |
| WillowCut.CutUpdateNeverArrives | cli/src/willow-sync.js:39-154 | over any run of any number of devices, once a device's summary leaves its only row with some content out, that content reaches no other device, until it is written again or a check on that device meets a threshold; nor does it while the device does not announce itself |
| WillowCut.LogsThatNeverAgree | cli/src/willow-sync.js:88-110 | a run that puts 101 rows on one device by gives, after which the two logs differ in digests and state whatever frames, other writes and checks follow, until a check on that device meets a threshold |
| WillowExample.DevicesApart | cli/src/willow-sync.js:88-110 | that run on an encoding that meets every assumed law |
| WillowGossip.NothingLostNothingInvented | cli/src/willow-sync.js:113-154 | over every interleaving of writes, compactions and lost, duplicated, delayed or misdirected frames on any number of devices, a device's log covers every update written there and never exceeds what was written anywhere |
| WillowGossip.LogOnlyGrows | cli/src/willow-sync.js:88-110 | along every such run the joined state never shrinks, row numbers strictly increase and a number once passed never names another row |
| WillowReads.LocalReadIsComplete | cli/src/willow-store.js:187-240 | in every run of writes and compactions a read shows exactly the join of every update ever written |
| WillowReads.ReadsCompleteIff | cli/src/willow-sync.js:88-110 | over any gossip run reads are complete throughout exactly when every give, as it is stored, inserts no snapshot or covers the log |
| WillowReads.CompleteWithoutGivenSnapshots | cli/src/willow-sync.js:103 | in every run whose gives insert no snapshot a read shows all the device holds, its own writes included |
| WillowReads.GossipReadRestored | cli/src/willow-store.js:289-329 | after any run a check leaves reads complete exactly when they were or a threshold is met, and they then show every own write; while an update row is held every check from some moment on does so, and once there are only snapshots no check changes the log |
| WillowReads.GossipedSnapshotHides | cli/src/willow-sync.js:103 | a run of two devices and one gossiped snapshot after which a read no longer shows a local update that the log still holds |
| WillowReads.SnapshotsStayHidden | cli/src/willow-store.js:297-311 | a run of two devices after which no check at any time brings a device's own write back into its reads |
| WillowExample.ReadLost | cli/src/willow-store.js:297-311 | that run on an encoding that meets every assumed law |
| Crc32.BuildTable | cli/src/zip-folder.js:33-38 | entry n is the register after eight bit steps from n |
| Crc32.Update | cli/src/zip-folder.js:39-43 | the table-driven loop continues the bit-at-a-time CRC-32 for every byte string |
| Crc32.ByteStep | cli/src/zip-folder.js:41 | one table lookup does what eight bit steps do to any register and byte |
| Crc32.CrcContinues | cli/src/zip-folder.js:39-43 | feeding a second chunk to the CRC of a first gives the CRC of both |
| Crc32.CrcOfChunks | cli/src/zip-folder.js:128 | in any chunking the running CRC ends as the CRC of the whole file |
| Crc32.CheckValues | cli/src/zip-folder.js:35-43 | the CRC of FF FF FF FF is FFFFFFFF, that of FF FF FF 7F is 12477CDF: initial value, complement, bit order and polynomial |
| ZipWriter.DosStampReads | cli/src/zip-folder.js:46-54 | the packed date and time give back the moment at two-second resolution within the format's years, and the nearest end outside them (section 4.4.6 of APPNOTE) |
| ZipFormat.Field16 | cli/src/zip-folder.js:84-88 | two little-endian bytes hold a number exactly up to 65535 |
| ZipFormat.Field32 | cli/src/zip-folder.js:83 | four little-endian bytes hold a number exactly up to 4294967295 |
| ZipFormat.CentralHeaderReads | cli/src/zip-folder.js:145-166 | a central header that fits its fields reads back, and tells where the next one starts (section 4.3.12) |
| ZipFormat.LocalRecordReads | cli/src/zip-folder.js:80-103 | a local header, stored bytes and descriptor read back against their central entry (sections 4.3.7 and 4.3.9) |
| ZipFormat.EndReads | cli/src/zip-folder.js:168-178 | the end record reads back from the end of the file (section 4.3.16) |
| ZipBuffers.LocalHeaderBuffer | cli/src/zip-folder.js:80-94 | each field at its offset in little-endian order; fails exactly when the name's length does not fit 16 bits |
| ZipBuffers.DescriptorBuffer | cli/src/zip-folder.js:96-103 | signature, CRC and both sizes at their offsets; fails exactly when a size does not fit 32 bits |
| ZipBuffers.CentralHeaderBuffer | cli/src/zip-folder.js:147-165 | every field of a central header at its offset; fails exactly when the offset does not fit 32 bits |
| ZipBuffers.EndBuffer | cli/src/zip-folder.js:169-177 | the end record's fields; fails exactly when a count, size or offset does not fit |
| ZipBuffers.CentralFieldsDecide | cli/src/zip-folder.js:147-165 | bytes with those fields are the central header, so no byte is left open |
| ZipWriter.Writer.AddDirectory | cli/src/zip-folder.js:106-112 | a folder is added exactly when its name fits, and everything written stays the local records of what was added |
| ZipWriter.Writer.AddFile | cli/src/zip-folder.js:115-140 | a file is added, whatever its chunks, exactly when its name and sizes fit, with the CRC and sizes of the whole |
| ZipWriter.Writer.Finalize | cli/src/zip-folder.js:143-181 | succeeds exactly when every count, size and offset fits its field, and the file is then the archive of everything added |
| ZipWriter.LocalsTile | cli/src/zip-folder.js:73-112 | the local records tile the file: the first at 0, each where the one before ends, the central directory after the last |
| ZipWriter.ArchiveReadsBack | cli/src/zip-folder.js:66-182 | a reader that starts at the end record, walks the central directory and follows each offset recovers every name, kind, mode, time and content, in order |
| ZipPlan.ExcludedAtOrUnder | cli/src/zip-folder.js:191-197 | the string test on relative paths is the test by components: a path is excluded exactly when it or a folder above it is in the list |
| ZipPlan.ExcludeListExact | cli/src/zip-folder.js:191 | the list holds exactly the paths handed in, without the slashes before and after them, empty ones dropped |
| ZipPlan.AdmittedIff | cli/src/zip-folder.js:16-19 | left out everywhere are `.aindrive`, `.git`, `node_modules` and `.DS_Store`, folders named longer than `.git` that end in it, and links |
| ZipPlan.ReachedIff | cli/src/zip-folder.js:190-229 | a node is reached exactly when every name on its way is archived and no path handed in, slashes around it aside, is the node or a folder above it |
| ZipPlan.Planner.WalkDir | cli/src/zip-folder.js:198-226 | the walk's lists, byte count and skip count are those of the folder's visits; it fails exactly when a cap is exceeded |
| ZipPlan.PlanExact | cli/src/zip-folder.js:190-229 | a file is taken exactly when no name on its way is skipped and neither it nor a folder above it is excluded; a folder is listed exactly when it is reached and keeps nothing; an excluded node counts exactly when it is in the list itself and all above it is reached |
| ZipPlan.NoneTwice | cli/src/zip-folder.js:198-226 | no path is visited twice |
| ZipPlan.SkippedCounts | cli/src/zip-folder.js:208 | `skipped` is the number of excluded nodes the walk meets |
| ZipPlan.OneMore | cli/src/zip-folder.js:208-225 | each visit adds its file and its size, its empty folder or its skip to the plan, and nothing else |
| ZipPlan.FolderListed | cli/src/zip-folder.js:222-225 | every reached folder is listed as empty or lies above a listed file or empty folder |
| ZipPlan.JoinInjective | cli/src/zip-folder.js:207 | different paths have different names in the archive |
| ZipFolder.Zip | cli/src/zip-folder.js:235-252 | an archive comes out exactly when the plan is within the caps and everything fits; it is the archive of the planned folders and files, with their number, the bytes they sum to and the number of excluded nodes met |
| ZipFolder.ArchiveComesBack | cli/src/zip-folder.js:235-252 | reading the archive of a folder back yields every planned entry |
| ZipFolder.FileComesBack | cli/src/zip-folder.js:190-252 | for any `exclude`, a regular file of the folder comes back with its bytes, mode and time exactly when every name on its way is archived and no path in `exclude`, slashes around it aside, is the file or a folder above it |
| ZipFolder.NothingElse | cli/src/zip-folder.js:190-252 | every extracted entry is such a file, or such a folder with nothing below it to show |
| ZipFolder.FolderComesBack | cli/src/zip-folder.js:222-225 | every folder whose names are all archived and that no path in `exclude` covers exists again after extraction |
| ZipFolder.CapsFit | cli/src/zip-folder.js:21-25 | with bounded input, names and number of entries and a worst-case deflate, every size, offset and count fits |
| ZipFolder.FolderFitsIff | cli/src/zip-folder.js:21-25 | within the default caps, with names that fit and at most 1 GiB of them, an archive fits exactly when the plan lists at most 65535 files and empty folders |
| ZipFolder.FolderFits | cli/src/zip-folder.js:21-25 | so at most 45535 empty folders always fit |
| ZipFolder.EmptyFoldersUncapped | cli/src/zip-folder.js:215-225 | a folder of 65536 empty folders is within both caps and has no archive |
| Rotation.Agent.ApplyRotation | cli/src/rotation.js:25-43 | refuses pairs with a short token or secret and changes nothing; otherwise the file holds the new pair with the current one as fallback, and memory is unchanged |
| Rotation.Agent.Adopt | cli/src/rotation.js:37-41 | memory takes the new pair and its fallback |
| Rotation.Agent.RevertRotation | cli/src/rotation.js:46-54 | with a usable fallback, memory and file hold it and no fallback; otherwise nothing changes |
| Rotation.Agent.CommitRotation | cli/src/rotation.js:57-62 | the fallback is gone in memory and file; without one nothing is written |
| Rotation.Agent.AdoptConfigOnDisk | cli/src/rotation.js:70-78 | takes the file's pair exactly when the file is of this drive and its token differs |
| Rotation.NeverLockedOut | cli/src/agent.js:322-421 | with lost oks, dropped connections and crashes at any step, the server's pair is always the agent's pair or its fallback, in memory and on disk, and no refused handshake finds the fallback missing |
| Rotation.OneRevertSuffices | cli/src/agent.js:412-421 | a handshake is accepted exactly when both ends hold the same pair, secret included; a refused one leads to an accepted one after one revert; through a crash during the revert, the first handshake after the restart is accepted or the one after its revert is |
| Rotation.GraceCoversTheSwitch | cli/src/agent.js:343-346 | on a live connection requests signed with the server's secret verify until the grace window ends, whether the ok arrived or not |
| Rotation.HandshakeCommits | cli/src/rotation.js:57-62 | an accepted handshake with its hello leaves the agent connected with the server's pair and no fallback |
| Rotation.RotationCompletes | cli/src/rotation.js:3-19 | a rotation whose ok arrives ends with both ends on the new pair, the old one the fallback until the next handshake and gone after it |
| Rotation.FileRescues | cli/src/rotation.js:70-78 | a refused agent with nothing to fall back to takes the file's pair when that is the server's, and is then accepted |
| Rotation.GraceAndCrashEnd | cli/src/agent.js:343-346 | after the window only the agent's own secret verifies; a crash keeps the file alone, which a restart reads |
| Rotation.RotationKeepsIff | cli/src/rotation.js:25-43 | a completed rotation leaves the agent a pair the server holds exactly when its pair was the server's before, or the server already holds the new one |
| Rotation.SecondRotationStrands | cli/src/rotation.js:31-34 | a second rotation whose request verifies only through the grace window, after a lost ok, ends with no pair the server knows, in memory or on disk |
| Supervisor.AgentManager.StartFolder | desktop/src/agents.js:105-118 | the folder's record, made if there is none, is wanted, not being removed and has no timer; a running child is kept for its exit to respawn, otherwise one is spawned |
| Supervisor.AgentManager.Spawn | desktop/src/agents.js:120-141 | a missing folder schedules a restart, a spawn that throws gives up, otherwise the record holds the one new process |
| Supervisor.AgentManager.OnExit | desktop/src/agents.js:169-194 | the record loses its child and SIGKILL timer; a removed one is forgotten, a stopped one stays, a killed but wanted one respawns at once, an unpaired one gives up, any other gets a restart timer |
| Supervisor.AgentManager.ScheduleRestart | desktop/src/agents.js:206-217 | arms one timer with the delay of the restart count, which grows by one |
| Supervisor.AgentManager.OnTimer | desktop/src/agents.js:214-216 | a fired restart timer is gone, and spawns only for a record still in the map, wanted and without a child |
| Supervisor.AgentManager.OnKillTimer | desktop/src/agents.js:228-230 | a fired kill timer is gone, and signals only its own child, if that one is still the record's and has a pid |
| Supervisor.AgentManager.Kill | desktop/src/agents.js:219-231 | marks the child killed and arms the SIGKILL timer for that child alone |
| Supervisor.AgentManager.StopFolder | desktop/src/agents.js:234-242 | the record is unwanted, without a timer, and a running child is told to stop |
| Supervisor.AgentManager.RemoveFolder | desktop/src/agents.js:245-254 | as a stop, and the record is forgotten at once if it has no child, otherwise it stays until the exit |
| Supervisor.AgentManager.AddStoppedFolder | desktop/src/agents.js:257-259 | a known folder is left alone |
| Supervisor.AgentManager.StopAllFolders | desktop/src/agents.js:262-272 | the loop stops every record in the map and touches no other |
| Supervisor.StepValid | desktop/src/agents.js:105-272 | every event, in any order, keeps the invariant |
| Supervisor.StartStarts | desktop/src/agents.js:105-141 | after a start the folder has one record, wanted and not being removed; a running child is kept, otherwise a missing folder waits 2, 5, 15 or 60 seconds by its count, a spawn that throws gives up, and else one new process runs |
| Supervisor.StopStops | desktop/src/agents.js:234-242 | after a stop the record is unwanted and has no timer, its running child is asked to end with a SIGKILL to follow, and nothing else changes |
| Supervisor.RemoveRemoves | desktop/src/agents.js:245-254 | a removal stops the record too, and forgets the folder at once exactly when it has no child |
| Supervisor.AddStoppedAdds | desktop/src/agents.js:257-259 | an unknown folder gets a new idle, unwanted record; a known one is left alone |
| Supervisor.StopAllStops | desktop/src/agents.js:262-272 | every record in the map is stopped like that, every other left alone |
| Supervisor.ExitEnds | desktop/src/agents.js:169-194 | after an exit the process is gone and its record has no child; which of forgetting, resting, an immediate start, giving up or a restart timer follows, by what the record wanted |
| Supervisor.TimerStarts | desktop/src/agents.js:214-216 | a restart timer that fires starts its folder again |
| Supervisor.KillTimerSignals | desktop/src/agents.js:228-230 | a SIGKILL timer that fires is gone and signals the process it was armed for, if that has a pid |
| Supervisor.ConnectedResets | desktop/src/agents.js:142-153 | a connection sets the restart count back |
| Supervisor.OneProcessPerFolder | desktop/src/agents.js:105-272 | in every run each folder has at most one live process |
| Supervisor.SpawnOnlyWanted | desktop/src/agents.js:120-141 | a process comes to life only for a folder that is wanted, not being killed, and has no other process |
| Supervisor.StoppedStays | desktop/src/agents.js:105-272 | after a stop, in any run without a start of the folder, it stays unwanted and no new process of it comes to life |
| Supervisor.KillHitsItsTarget | desktop/src/agents.js:228-230 | every SIGKILL, a second one to the same process too, is sent by a kill timer, to the live process the timer was armed for, its record's child, which was asked to stop |
| Supervisor.WantedComesBack | desktop/src/agents.js:169-217 | a wanted folder without a child has its restart timer armed unless its last spawn threw or its last exit was unpaired; an unwanted folder's process has been asked to stop |
| Supervisor.ForgottenIsInert | desktop/src/agents.js:178-215 | a record that left the map has no child and no timer, so closures that still hold it do nothing |
| GitStream.GitExecs.StartExec | cli/src/git-exec.js:57-73 | refuses, in this order, a malformed id, a taken id, a ninth exec and an unknown service; otherwise registers the exec |
| GitStream.GitExecs.OnStdout | cli/src/git-exec.js:75-82 | the chunking loop sends one read cut at every multiple of 262144 bytes, and pauses once the unacked count reaches the window |
| GitStream.GitExecs.OnStdin | cli/src/git-exec.js:109-115 | an ack lowers the unacked count to no less than zero and resumes below half a window; an unknown id is dropped |
| GitStream.GitExecs.FinishExec | cli/src/git-exec.js:138-144 | the first finish takes the exec out and sends its one exit frame; later ones do nothing |
| GitStream.GitExecs.CloseAllExecs | cli/src/git-exec.js:131-136 | every running exec is finished silently and the registry is empty |
| GitStream.StepValid | cli/src/git-exec.js:57-144 | every event keeps the registry exact and at most eight, one exec an id, and every paused stream at or above half a window, every other below the window |
| GitStream.TakenIff | cli/src/git-exec.js:57-61 | a request is taken exactly when its id is 8 to 64 letters, digits, underscores and dashes and free, fewer than eight execs run and the service is one of the two; the first failing condition names the refusal |
| GitStream.StartTakes | cli/src/git-exec.js:62-73 | a taken request runs under its id with nothing sent; a refused one changes nothing |
| GitStream.PieceAt | cli/src/git-exec.js:76-80 | a read goes out as consecutive pieces of 262144 bytes, the last being what is left |
| GitStream.DataSends | cli/src/git-exec.js:75-82 | a read is sent and counted, and pauses the stream exactly at 4 MiB unacked |
| GitStream.AckResumes | cli/src/git-exec.js:112-115 | an ack takes its bytes off the count and resumes a paused stream exactly below 2 MiB |
| GitStream.FinishReports | cli/src/git-exec.js:138-144 | a finish of a running exec sends exactly one exit frame and frees its id |
| GitStream.CloseAllEnds | cli/src/git-exec.js:131-136 | closing ends every exec without a frame |
| GitStream.ExitOnce | cli/src/git-exec.js:131-144 | over any run an exec that ended by itself has sent exactly one exit frame, one closed with the connection none, one that runs none |
| GitStream.FramesCarryOutput | cli/src/git-exec.js:75-82 | in every run the stdout frames of one exec are numbered from 0 without a gap, carry its id and 1 to 262144 bytes, and together are exactly what git wrote; at most one exit frame, none while it runs |
| GitStream.UnackedIsSentMinusAcked | cli/src/git-exec.js:78-113 | with acks never exceeding bytes sent, the unacked count is exactly sent minus acked |
| GitStream.UnackedBounded | cli/src/git-exec.js:75-82 | the unacked count stays below the window plus one read, whatever the acks |
| GitStream.FullAckResumes | cli/src/git-exec.js:112-115 | a paused stream has at least half a window outstanding, and any acks that together reach what is outstanding resume it |
| Claiming.Folder.ExclusiveWrite | cli/src/afan-bridge.js:337-354 | undisturbed, creates the file exactly when there was none and says so, with hard links or without |
| Claiming.Folder.ProcessRequest | cli/src/afan-bridge.js:504-645 | undisturbed, a run takes only steps of the protocol; it answers exactly when there was no result or its own claim was found, sends at most once, and leaves any other result as it was |
| Claiming.OneDeviceSends | cli/src/afan-bridge.js:504-619 | with hard links, whatever the file held at first and whoever crashes, at most one device ever sends, and only while the result says it is running |
| Claiming.ResultAdvances | cli/src/afan-bridge.js:527-645 | over any run a result goes from absent to running to terminal, or straight to terminal, and a terminal one is never rewritten |
| Claiming.SameMessageId | cli/src/afan-bridge.js:522-618 | while the request's key is unchanged every send carries it as its messageId, resumed runs included |
| Claiming.NewKeyIsSent | cli/src/afan-bridge.js:522-618 | a run that starts after the request got a new key claims, sends that key and finishes |
| Claiming.CrashedClaimResumes | cli/src/afan-bridge.js:511-517 | a crashed host that finds its own claim takes it up again |
| Claiming.TwoHostsRace | cli/src/afan-bridge.js:347-350 | without hard links two hosts that both look before either renames both send |
| Claiming.OneSenderIffHardLinks | cli/src/afan-bridge.js:342-350 | every run has one sender exactly on a file system with hard links |
| Canonical.StringifyCuts | cli/src/sig.js:18 | what JSON.stringify prints with a property list is the text of the value cut down to those keys, in the list's order at every depth |
| Canonical.CutLookup | cli/src/sig.js:18 | the cut holds under each key of the list the cut of what was defined there, and nothing else |
| Canonical.CutItemAt | cli/src/sig.js:18 | a list keeps its length, with null for undefined |
| Canonical.EscapeReads | cli/src/sig.js:18 | a reader of string literals (section 7 of RFC 8259) undoes the escape of each character |
| Canonical.EscapeShape | cli/src/sig.js:18 | only quotation marks, reverse solidi and control characters are escaped, by one letter where there is one, otherwise by code in lower case |
| Canonical.TextReads | cli/src/sig.js:18 | a reader of JSON texts gives back the value and what follows its text |
| Canonical.LessIff | cli/src/sig.js:18 | keys are ordered by the codes of their characters |
| Canonical.CanonicalReads | cli/src/sig.js:17-18 | a peer that parses the canonical text finds one object, its keys in order, holding the payload's defined values cut down to its own keys |
| Canonical.TextPrefix | cli/src/sig.js:18 | a text tells its value and where it ends: different values never share a text |
| Canonical.AscendingUnique | cli/src/sig.js:18 | the sorted key list depends on the set of keys alone |
| Canonical.CanonicalExactly | cli/src/sig.js:17-20 | two payloads without undefined members have one canonical text exactly when they have the same keys and agree on every value cut down to those key names, whatever the key order |
| Canonical.WireKeepsCanonical | cli/src/agent.js:342-345 | a printed and parsed payload keeps its canonical text exactly when no object in it mentions a top-level key that held undefined |
| Canonical.SignedFrameVerifies | cli/src/agent.js:403-407 | a frame signed, printed, parsed and stripped of `sig` and `type` verifies whenever no top-level value is undefined, or none is an array or an object |
| Canonical.ReplyVerifies | cli/src/agent.js:355-407 | every reply the agent builds verifies at the server, whatever its result, an undefined one included, and whatever its error |
| Canonical.SignedFrameVerifiesIff | cli/src/sig.js:17-27 | of any payload signPayload accepts, with a collision-free MAC, the frame verifies exactly when no object in it mentions a top-level key that held undefined |
| Canonical.UndefinedBreaksSignature | cli/src/sig.js:17-27 | a payload signPayload accepts, though the agent builds none like it, with an undefined error and an error inside its result, is refused under every secret once it went over the wire |
| WriteChain.Chains.WriteFileSerialized | cli/src/rpc.js:177-181 | a call waits for the tail the map holds for its path and becomes the tail |
| WriteChain.Chains.CleanUp | cli/src/rpc.js:182 | drops the entry only if the chain has not grown |
| WriteChain.CleanupDrops | cli/src/rpc.js:182 | a cleanup marks its call and drops exactly its own entry |
| WriteChain.OneAtATimeInOrder | cli/src/rpc.js:177-184 | two writes of one path are never in progress together, and a write starts only when every earlier one of its path is over, failed or not |
| WriteChain.ContentIsLatest | cli/src/rpc.js:177-184 | after any run each file holds what the latest call that left anything in it left there, whole or half-written |
| WriteChain.LastSuccessStaysIff | cli/src/rpc.js:177-184 | a successful write stays the content exactly when the calls after it left nothing in the file, or the latest that did left the same data |
| WriteChain.FailedWriteClobbers | cli/src/rpc.js:177-184 | a write that truncates the file and then fails leaves it empty although the write before it succeeded |
| WriteChain.CanStart | cli/src/rpc.js:178-179 | a waiting write whose predecessors are over can start: failures do not block the chain |
| WriteChain.EntryWhileNeeded | cli/src/rpc.js:180-182 | the map holds an entry for a written path exactly while its last call is unsettled or its cleanup is pending, and the entry is that call |
| WriteChain.EmptyAtRest | cli/src/rpc.js:182 | once every call is settled and cleaned up the map is empty |
| StatusV2.ParseStatus | cli/src/rpc.js:360-385 | the index loop reads the records one after another, a rename's record taking the next along, and gives up exactly where the code throws |
| StatusV2.PathAfter | cli/src/rpc.js:373-376 | the path is whatever follows the fixed fields, spaces included |
| StatusV2.NumbersMatch | cli/src/rpc.js:367 | the pattern finds the two counts of the printed line, whatever their size |
| StatusV2.ParsePrint | cli/src/rpc.js:360-385 | parsing the NUL-separated print of any status gives back exactly its staged, unstaged and untracked lists in order, its branch and its counts, whatever the paths contain |

## Left out

- WillowStore.Store.FulfillWant: the query has no ORDER BY; the model returns rows in number order, and no property depends on it.
- WillowStore.Store.YjsWrite: does not model the id and size checks of the dispatcher, nor the `.bin` file written beside the log and read when the log is empty.
- WillowGossip.NothingLostNothingInvented: takes frames as the devices send them; an entry whose digest is not its payload's hash is not modelled.
- WillowReads.GossipReadRestored: a check may come at any moment, while the code runs one after each write only; a device that never writes again never checks.
- ZipWriter.Writer.AddFile: takes the file's chunks and deflate's chunks as two sequences; back-pressure and stream errors are not modelled.
- ZipFolder.Zip: takes the folder as it is for the whole call; the deadline, the abort signal and the removal of a failed output file are not modelled.
- ZipPlan.Planner.WalkDir: takes children in the order the sort leaves them; the locale's collation is not modelled.
- Rotation.NeverLockedOut: rests on the server as `cli/src/rotation.js:3-19` describes it: it stores the new pair only on the ok, an ok is taken or lost before the next handshake is judged, the hello is the first frame of a connection, and a rotation starts only when the agent's pair is the server's, towards a token it does not hold. A config write that fails without a crash and a concurrent `aindrive rotate-token` are not modelled.
- Supervisor.StepValid: the status line shown to the user and the parsing of output are not modelled, beyond the reset of the restart count.
- Supervisor.KillHitsItsTarget: assumes that a process that never got a pid never runs.
- GitStream.GitExecs.OnStdin: models the ack only; writing to git's stdin, its acks, kill and eof change none of the modelled state.
- GitStream.GitExecs.FinishExec: the five-minute cap, stderr frames and the working-copy sync before an exit frame are not modelled.
- Claiming.OneDeviceSends: which terminal result a run writes, and the checks that decide it, are a free choice; distinct device names and one process a device are assumed, as in the code.
- Canonical.AscendingUnique: keys sort by code point, JavaScript by UTF-16 unit; the orders differ only for characters beyond the basic plane, and only the dependence on the key set is used.
- Canonical.TextReads: the reader takes texts without white space, and a number as the characters it is made of.
- Canonical.TextPrefix: strings hold no lone surrogates; numbers are the text JavaScript prints for finite ones.
- Canonical.ReplyVerifies: a request's id is a string, a number or a boolean, and results are plain JSON values or undefined; objects with a toJSON of their own are not modelled.
- Canonical.SignedFrameVerifies: JSON.parse is any function that gives back the printed value with members in any order.
- WriteChain.OneAtATimeInOrder: the settling of a write and of its tail are one step; readers that see a half-written file are not modelled.
- StatusV2.NumbersMatch: counts are unbounded where JavaScript's numbers round above 2^53.
- Names and texts are byte strings or character sequences; UTF-8 decoding is not modelled.
- The Willow `Store` writes, which are fire-and-forget and never read back; Y.js internals, SHA-256, HMAC, deflate and git themselves.
- The server ends of rotation, gossip and RPC, WebSockets, HTTP, file watching, logging and the user interfaces.
- The git panel calls, agent runners, handoff registry, daemon pidfile and argument parsing, which keep no state over a run.
