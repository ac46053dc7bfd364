# Verified models of the native code under OutdoorTribe/Pods

The app itself is UIKit and Firestore plumbing; the algorithms it depends on are
in the C and C++ it carries. This project models five of them in Dafny and
proves what they are relied on for. `dafny verify dfyconfig.toml` checks
everything.

**LevelDB** (`Versions`, `Compaction`, `Levels`, `Picker`, `Logs`, `Engine`,
`EngineProofs`, `Clients`, `Housekeeping`, `Runs`, `Lookup`, `Resurfacing`,
`CompactionJob`, `Recovery`, `Readers`, `GroupCommit`, `DbIter`,
`InternalKeys`). Entries carry a user key, a sequence number and a
value or a deletion; the specification of a read is the newest entry of the key
at or below a sequence. The engine is a state machine whose steps are the
stretches of `db_impl.cc` between mutex operations and the effects that become
durable while the mutex is free: the memtables, logs with their batches and
synced parts, table files, pending outputs, the version in memory and the one in
the descriptor, snapshots, pinned readers, the background job, errors and
crashes. What every step keeps comes in two parts. `Engine.Inv`, which no step
breaks, says among other things that the tables hold only what was written and
lack of it only what a version or deletion that every reader sees has replaced;
the survival of acknowledged writes, that no reader misses a value, and the
safety of file deletion stand on it. `Engine.ReadsOk` says that reads answer
exactly from the history of writes; every step keeps it but a compaction that
uncovers a deleted value, and snapshot stability stands on it. `Clients` says
what this comes to for a caller: a map that each committed write updates and
nothing else changes, and snapshots and readers that keep the map of the moment
they were taken. `Housekeeping` says what is cleared away. `Picker` is the version
set's own code: how files are found, where a flush goes and what a compaction
picks, proved to give what the engine's steps start from. The compaction loop,
the batch group loop, log replay, file deletion and the iterator are imperative
code proved against their specifications.

**nanopb** (`Wire`, `Schema`, `RoundTrip`, `Refusals`, `Peers`, `Decoded`,
`Payloads`, `FieldIter`, `Encoder`, `Decoder`, `Transfer`). `Schema` defines descriptors, messages and
the wire format as an encoding and a decoding function; `RoundTrip` relates the
two, with the round trip as the special case of decoding with an older
descriptor, and `Refusals` says which messages do not survive it; `Peers` gives
the meaning of the records any other encoder may send and `Payloads` that of
values that need not fit; `Encoder` and
`Decoder` are the stream code, with counting and writing streams and
length-limited substreams, proved to compute those functions.

**libuv heap and timers** (`HeapOrder`, `Heap`, `Timers`). The heap is the
pointer structure of the source; a ghost sequence of its nodes, level by level,
says what complete and linked mean. The timer loop runs scripted callbacks that
start, stop, repeat and close timers.

**libuv thread pool** (`ThreadPool`, `PoolTraces`, `Queue`). A state machine over
critical sections, condition-variable signals and spurious wakeups, for any
number of workers and loops; `PoolTraces` relates what requests, workers and
loops do over a run.

**libuv text codecs** (`Punycode`, `Inet`, `InetForms`), against the decoder of section 6.2
of RFC 3492 and the text forms of section 2.2 of RFC 4291 and section 4.2 of RFC
5952.

What is relied on without proof, because its code is not part of this model:
VersionSet::LogAndApply (it installs an edit or fails, and on a failure the edit
may or may not be in the descriptor), MemTable, table files, the log format, and
the user comparator's total order. Condition variables wake at least one waiter
when signalled, and may wake others.

Findings, each with a proof and, where a property fails, the exact condition:

- A compaction can bring a deleted value back. SetupOtherInputs adds boundary
  files for the level it compacts but not for the next one, so a next-level file
  that goes on with the user key at which the picked ones end may stay behind;
  if the picked part ends in a deletion that IsBaseLevelForKey lets the loop
  drop, the older value left behind reads again. Reads survive exactly when no
  left-behind next-level file holds the value under such a deletion
  (`Levels.ReplaceReadsIff`, `EngineProofs.CompactRecordReads`), and it is enough
  that none starts at the largest user key of inputs_[1] (`Levels.BoundaryCovers`,
  `Runs.BoundedReads`). `Resurfacing.DeletedValueReads` is a run of a new database
  in which it happens to a live snapshot. Over whole runs reads are right exactly
  when all compactions cover (`EngineProofs.RunReadsIff`); one reader's answer
  changes exactly when it was such a deletion (`EngineProofs.CompactedReadAt`).
  That is the only fault: in every run, covering or not, a value that the history
  has at a reader's sequence is what the reader gets (`EngineProofs.ValuesRead`,
  `Readers.IteratorMissesNone`), and acknowledged writes stay in the tables and
  logs that a recovery reads (`EngineProofs.AcknowledgedStays`).
- A memtable flushed while a compaction is under way may land between what the
  compaction writes, and then two files of one level overlap. That cannot happen
  if and only if the compaction writes to a level beyond the reach of a flush or
  every key within the range of what it writes is in the range of some file at or
  above its output level, picked or not (`Runs.SortedRunsIff`). The picks of
  PickCompaction always meet this (`Runs.PickedFenced`); those of a manual
  compaction need not (`Runs.GapInterleaves`).
- A key that does not parse resets the drop state. Reads survive exactly when no
  dropped deletion that readers see is followed by a value of its key right after
  such a key (`Compaction.UnparsableIff`). At smallest_snapshot ==
  kMaxSequenceNumber everything is dropped.
- The internal separator of two versions of one user key may lie after both for a
  user comparator within its contract.
- A nanopb string that fills its array, and a length of 2^32 or more, are written
  but not read back; all else the encoder writes is (`Refusals.RoundTripIff`).
- A singular byte field of fixed length is written even when it holds only zeros,
  and so is a message that has one or has a required field; every other proto3
  field is left out exactly when it has its default (`RoundTrip.DefaultOmitted`).
- uv__run_timers ends exactly when, after whatever its callbacks do in the first
  turns, the clock is before its 64-bit end or no due timer repeats
  (`Timers.EndsIff`).
- In inet_ntop6 the case of seven leading zero words never leads to the embedded
  IPv4 form, because its last word is then the only one left and is printed as
  hex (`Inet.FormatIsText`).
- `uv_inet_ntop` reports success for an IPv6 buffer of no bytes.

## Model

| member | source | states |
|---|---|---|
| Versions.GetFindsLatest | OutdoorTribe/Pods/leveldb-library/db/db_impl.cc:1100-1145 | searching memtable, immutable memtable and tables in order and stopping at the first layer that has a visible version finds the newest visible version overall, when newer layers hold larger numbers for each key |
| Versions.ReadOver | OutdoorTribe/Pods/leveldb-library/db/db_impl.cc:1120-1130 | a layer of newer entries decides every key it shows a version of; only the others are read below it |
| Compaction.DoCompactionWork | OutdoorTribe/Pods/leveldb-library/db/db_impl.cc:906-1010 | the merge loop succeeds exactly when nothing interrupts it or shuts it down, the iterator reports no error and the output files concatenated are exactly the items the drop rules spare, in input order; they are whenever the last file can be closed; no output file is empty; a file ends wherever ShouldStopBefore or the size of the open file asks for it, and but for the last one nowhere else |
| Compaction.ErrorKeysKept | OutdoorTribe/Pods/leveldb-library/db/db_impl.cc:930-935 | every key that does not parse is in the output, in order |
| Compaction.DropsByRule | OutdoorTribe/Pods/leveldb-library/db/db_impl.cc:927-973 | on sorted parseable input the loop's per-key state drops an entry exactly when a version at or below smallest_snapshot hides it or it is an obsolete deletion at base level |
| Compaction.LastSequenceHides | OutdoorTribe/Pods/leveldb-library/db/db_impl.cc:941-958 | last_sequence_for_key is at most smallest_snapshot exactly when a newer version of the key that every reader sees exists |
| Compaction.SurvivorsAreKept | OutdoorTribe/Pods/leveldb-library/db/db_impl.cc:927-973 | the surviving items are sorted and are exactly the entries the drop rules keep |
| Compaction.DropIff | OutdoorTribe/Pods/leveldb-library/db/db_impl.cc:941-973 | of whatever drops only hidden versions and obsolete deletions, every reader at or above smallest_snapshot finds what it found before, if and only if no dropped deletion uncovers a value |
| Compaction.KeptReadsIff | OutdoorTribe/Pods/leveldb-library/db/db_impl.cc:941-973 | for the entries the drop rules keep, over any other levels: reads survive if and only if no dropped deletion, the newest version of its key that is old enough, has a value beneath it outside the compaction |
| Compaction.KeptReadAt | OutdoorTribe/Pods/leveldb-library/db/db_impl.cc:941-973 | and the read of one key at one sequence changes if and only if the version it found is a dropped deletion that uncovers a value |
| Compaction.CompactionReadsIff | OutdoorTribe/Pods/leveldb-library/db/db_impl.cc:906-999 | for every sorted stream, keys that do not parse included, the loop's output reads like its input at and above smallest_snapshot if and only if no value is uncovered, outside the compaction or behind a key that does not parse |
| Compaction.CompactionPreservesReads | OutdoorTribe/Pods/leveldb-library/db/db_impl.cc:906-999 | on a stream that parses, only what lies outside the compaction can be uncovered |
| Compaction.SurvivesBehind | OutdoorTribe/Pods/leveldb-library/db/db_impl.cc:930-958 | behind a dropped deletion an older version survives the loop exactly when it is a value that follows a key that does not parse |
| Compaction.UnparsableIff | OutdoorTribe/Pods/leveldb-library/db/db_impl.cc:930-958 | with all else newer, reads survive a stream with unparsable keys if and only if no dropped deletion that is the newest old enough version of its key is followed by a value of that key whose preceding item does not parse |
| Compaction.OlderReadersMayLose | OutdoorTribe/Pods/leveldb-library/db/db_impl.cc:893-899 | the bound is needed: a reader below smallest_snapshot can read something else after compaction |
| Compaction.LastSequenceExhausted | OutdoorTribe/Pods/leveldb-library/db/db_impl.cc:903-958 | at smallest_snapshot == kMaxSequenceNumber the initial last_sequence_for_key already hides everything, so nothing survives: why the preservation results ask for a smaller one |
| Compaction.UnparsableKeyUncovers | OutdoorTribe/Pods/leveldb-library/db/db_impl.cc:930-935 | it happens in a stream in internal key order: a key with an unknown type byte between a deletion and the value it deletes |
| Levels.LayersCover | OutdoorTribe/Pods/leveldb-library/db/db_impl.cc:1120-1130 | the layers of an ordered version are layered newest first and hold exactly its entries |
| Levels.ReplaceOrdered | OutdoorTribe/Pods/leveldb-library/db/db_impl.cc:860-876 | replacing a compaction's inputs by outputs holding no more than their entries keeps level order |
| Levels.ReplaceReadsIff | OutdoorTribe/Pods/leveldb-library/db/db_impl.cc:860-876 | and the new version reads like the old one at or above smallest_snapshot if and only if no left-behind table of the next level holds the value under a dropped deletion |
| Levels.ReplaceReadAt | OutdoorTribe/Pods/leveldb-library/db/db_impl.cc:860-876 | and reader by reader: what one key reads as at one sequence changes exactly when it was a deletion over a value in a left-behind next-level table |
| Levels.OnlyNextOlder | OutdoorTribe/Pods/leveldb-library/db/version_set.cc:1533-1553 | under a deletion that readers see and IsBaseLevelForKey lets go, only left-behind tables of the next level can hold an older version |
| Levels.PickedFits | OutdoorTribe/Pods/leveldb-library/db/version_set.cc:1403-1445 | what SetupOtherInputs picks is what the proofs need: no left-behind next-level table shares a key with a picked table of the level |
| Levels.BoundaryCovers | OutdoorTribe/Pods/leveldb-library/db/version_set.cc:1378-1401 | if no left-behind next-level table starts at the largest user key of inputs_[1], no value is uncovered |
| Levels.BoundaryUncovers | OutdoorTribe/Pods/leveldb-library/db/version_set.cc:1403-1412 | the check is needed: levels in order, tables picked by SetupOtherInputs' rule, and a deleted value that reads again after the compaction |
| Levels.AddTableOrdered | OutdoorTribe/Pods/leveldb-library/db/db_impl.cc:517-526 | a flushed memtable put where PickLevelForMemTableOutput allows keeps level order |
| Levels.AddTableFits | OutdoorTribe/Pods/leveldb-library/db/db_impl.cc:909-924 | a memtable flushed in the middle of a running compaction leaves that compaction valid |
| Picker.FindFile | OutdoorTribe/Pods/leveldb-library/db/version_set.cc:88-107 | the binary search returns the first file whose last key is at or after the lookup key |
| Picker.FoundDecides | OutdoorTribe/Pods/leveldb-library/db/version_set.cc:365-385 | in a level whose files are in order, the file found decides what a search of the whole level finds |
| Picker.VersionGet | OutdoorTribe/Pods/leveldb-library/db/version_set.cc:326-429 | searching level 0 newest first and one file of each deeper level finds what a search of all layers finds |
| Picker.SomeFileOverlapsRange | OutdoorTribe/Pods/leveldb-library/db/version_set.cc:122-156 | true exactly when a file touches the range, by scan or by search |
| Picker.GetOverlappingInputs | OutdoorTribe/Pods/leveldb-library/db/version_set.cc:519-559 | exactly the files that touch the range, which in level 0 is widened, without gaps, until none of them sticks out; the restarts end |
| Picker.PickLevelForMemTableOutput | OutdoorTribe/Pods/leveldb-library/db/version_set.cc:491-516 | level 0 if one of its files touches the memtable's range; else the first level from which going on is stopped, by a file of the next level that touches the range or by too many bytes in the level after it, at most 2; no file at the level or above touches the range |
| Picker.LevelFits | OutdoorTribe/Pods/leveldb-library/db/version_set.cc:491-516 | which is what the engine's flush step asks |
| Picker.AddBoundaryInputs | OutdoorTribe/Pods/leveldb-library/db/version_set.cc:1378-1401 | ends with no file that goes on with the user key at which the picks end, adds such files only, and keeps a stretch of consecutive files one |
| Picker.SetupOtherInputs | OutdoorTribe/Pods/leveldb-library/db/version_set.cc:1403-1452 | the picks of the level contain those given, are closed or consecutive and have no boundary file left, those of the next level are exactly the files that touch their range, and together they leave no gap; they are expanded exactly when that brings in more files of the level, none of the next, and stays within the size limit |
| Picker.PickFirst | OutdoorTribe/Pods/leveldb-library/db/version_set.cc:1280-1294 | by size, the first file that ends after the compact pointer, or the first of all when there is none |
| Picker.FilesTakeTurns | OutdoorTribe/Pods/leveldb-library/db/version_set.cc:1280-1294 | so the files of a level below 0 take turns: after the one that the last picks ended with comes the next, after the last the first |
| Picker.PickCompaction | OutdoorTribe/Pods/leveldb-library/db/version_set.cc:1270-1322 | so are the picks made from any first file of any level, which is one of them |
| Picker.BaseLevel.IsBaseLevelForKey | OutdoorTribe/Pods/leveldb-library/db/version_set.cc:1533-1553 | for keys asked in order, true exactly when no file beyond the next level has room for the key |
| Picker.BaseFits | OutdoorTribe/Pods/leveldb-library/db/version_set.cc:1533-1553 | the keys it says yes to have nothing deeper |
| Picker.VersionSetPicks | OutdoorTribe/Pods/leveldb-library/db/version_set.cc:1403-1452 | the picks and those keys are what the engine's compaction steps start from |
| EngineProofs.StepInv | OutdoorTribe/Pods/leveldb-library/db/db_impl.cc:1185-1370 | every step (group write, switch, flush, compaction, trivial move, snapshot, reader, crash and recovery, success or failure) keeps the structure of the engine: numbers, memtables, logs and their batches, table order, files, background work, readers' views; and that tables and views lack nothing that was written but what every reader sees replaced |
| EngineProofs.RunInv | OutdoorTribe/Pods/leveldb-library/db/db_impl.cc:1185-1370 | it holds in every state of every run of a new database |
| EngineProofs.FlushTables | OutdoorTribe/Pods/leveldb-library/db/db_impl.cc:535-566 | with the flushed memtable's table the tables are in order, hold only what was written up to the switch, and lack of it only what every reader sees replaced |
| EngineProofs.CompactTables | OutdoorTribe/Pods/leveldb-library/db/db_impl.cc:860-876 | so are the tables after a compaction, covering or not: an entry it drops is hidden by a newer one or is a deletion, at or below smallest_snapshot |
| EngineProofs.ValuesRead | OutdoorTribe/Pods/leveldb-library/db/db_impl.cc:1100-1145 | in every state of every run, whatever the compactions uncovered, Get at the last sequence and at every live snapshot returns every value that the history has there; only a deleted key can read otherwise |
| EngineProofs.StepReads | OutdoorTribe/Pods/leveldb-library/db/db_impl.cc:1185-1370 | every step keeps tables, the tables a recovery would find and readers' views answering from the history of writes, if the compaction whose edit it records covers |
| EngineProofs.CompactRecordReads | OutdoorTribe/Pods/leveldb-library/db/db_impl.cc:860-876 | and that condition is exact: recording a compaction keeps reads right if and only if no value is uncovered |
| EngineProofs.CompactedReadAt | OutdoorTribe/Pods/leveldb-library/db/db_impl.cc:860-876 | what Get returns for a key at a sequence at or above smallest_snapshot, a live snapshot's among them, changes with an installed compaction exactly when no memtable decides it and it was a dropped deletion over a value in a left-behind next-level table |
| EngineProofs.JobCoversStays | OutdoorTribe/Pods/leveldb-library/db/db_impl.cc:909-924 | once a compaction covers it covers until its edit is recorded, whatever is flushed in between |
| EngineProofs.StartCovered | OutdoorTribe/Pods/leveldb-library/db/db_impl.cc:885-899 | so checking each compaction when it starts is enough |
| EngineProofs.RunReads | OutdoorTribe/Pods/leveldb-library/db/db_impl.cc:1185-1370 | along every run whose compactions cover, reads stay right |
| EngineProofs.RunReadsIff | OutdoorTribe/Pods/leveldb-library/db/db_impl.cc:1185-1370 | and along no other: reads are right in all states of a run up to one if and only if its compactions up to there cover |
| EngineProofs.GetReadsHistory | OutdoorTribe/Pods/leveldb-library/db/db_impl.cc:1100-1145 | in every state of such a run, Get at the last sequence and at every live snapshot returns what the history of writes says |
| EngineProofs.SnapshotStep | OutdoorTribe/Pods/leveldb-library/db/db_impl.cc:890-999 | no single step changes what a live snapshot reads, if a compaction it records covers |
| EngineProofs.SnapshotStable | OutdoorTribe/Pods/leveldb-library/db/db_impl.cc:1166-1174 | over any stretch of a run without a crash, a snapshot that stays live keeps its number and reads the same value for every key, in every run whose compactions cover |
| EngineProofs.ReaderStable | OutdoorTribe/Pods/leveldb-library/db/db_impl.cc:1100-1145 | a Get that holds memtables and a version keeps reading the history at its own sequence while its memtable goes on filling and compactions drop tables |
| Clients.WriteTakesEffect | OutdoorTribe/Pods/leveldb-library/db/db_impl.cc:1185-1256 | in every run whose compactions cover, what Get returns after a write that returned OK is what it returned before, updated by the batch, the last update of a key counting; a write that failed changes nothing |
| Clients.BatchRead | OutdoorTribe/Pods/leveldb-library/db/db_impl.cc:1204-1222 | reading the history after a batch is applying the batch to what was read before it |
| Clients.PutIsShown | OutdoorTribe/Pods/leveldb-library/db/db_impl.cc:1185-1256 | in any run, covering or not, what a write puts is what Get returns after it |
| Clients.OthersShowNothing | OutdoorTribe/Pods/leveldb-library/db/db_impl.cc:1100-1145 | no step but the end of a write or a crash changes what Get returns, if a compaction it records covers |
| Clients.UpdatesAcknowledged | OutdoorTribe/Pods/leveldb-library/db/db_impl.cc:1185-1256 | every update of a write that returned OK is acknowledged, at a number beyond all earlier ones, and safe if it was synced |
| Clients.AcknowledgedShown | OutdoorTribe/Pods/leveldb-library/db/db_impl.cc:1100-1145 | in any run an acknowledged value that nothing newer replaces is what Get returns |
| Clients.SnapshotSince | OutdoorTribe/Pods/leveldb-library/db/db_impl.cc:1166-1168 | a snapshot has the last sequence of the state it was taken in until it is released, and everything written later has a larger number |
| Clients.SnapshotShows | OutdoorTribe/Pods/leveldb-library/db/db_impl.cc:1166-1174 | until it is released, Get through a snapshot returns what Get without one returned when it was taken, in every run whose compactions cover, and in any run wherever the history has a value |
| Clients.SnapshotSees | OutdoorTribe/Pods/leveldb-library/db/db_impl.cc:1166-1168 | in any run a snapshot sees every write acknowledged before it that is the newest of its key |
| Clients.ReaderShows | OutdoorTribe/Pods/leveldb-library/db/db_impl.cc:1100-1160 | a Get or an iterator without a snapshot reads, as long as it holds what it took, what Get returned in the state it began in; with a snapshot, what Get through that returned |
| Clients.ReopenShowsSame | OutdoorTribe/Pods/leveldb-library/db/db_impl.cc:1474-1505 | closing and reopening changes nothing that Get returns, if no write was under way, no failed one is in the logs and nothing of them is lost |
| Clients.CrashedHistory | OutdoorTribe/Pods/leveldb-library/db/db_impl.cc:280-369 | a crash keeps every write but those torn from the logs and adds at most what is in the logs |
| Housekeeping.FailureStops | OutdoorTribe/Pods/leveldb-library/db/db_impl.cc:640-662 | from a failed flush, compaction or log sync to the next opening no write, memtable switch or background call begins, and once no write is under way the history and LastSequence stay |
| Housekeeping.NothingObsolete | OutdoorTribe/Pods/leveldb-library/db/db_impl.cc:223-278 | where a flush or a compaction ends, or the database opens, and no error is recorded, every table file left is in use or being written and every log left is needed |
| Housekeeping.Reclaimed | OutdoorTribe/Pods/leveldb-library/db/db_impl.cc:885-973 | what a completed compaction writes has no version that a newer one among its inputs replaced before the oldest snapshot there was when it started, and no such deletion of a key at base level |
| Housekeeping.ReleasedSince | OutdoorTribe/Pods/leveldb-library/db/db_impl.cc:1171-1174 | a snapshot that was released, or lost by closing, is not among those a compaction looks at |
| Housekeeping.UnpinnedSince | OutdoorTribe/Pods/leveldb-library/db/db_impl.cc:1050-1058 | a reader that has let go holds no version any more |
| Readers.IteratorSeesHistory | OutdoorTribe/Pods/leveldb-library/db/db_impl.cc:1062-1155 | DBIter over the merged entries of the memtables and the version an iterator holds shows exactly the keys the history has at its sequence, with their values |
| Readers.Iterate | OutdoorTribe/Pods/leveldb-library/db/db_impl.cc:1147-1160 | and whatever calls are made, every pair it reports is a key and value of that history |
| EngineProofs.ReaderValues | OutdoorTribe/Pods/leveldb-library/db/db_impl.cc:1100-1145 | in every run, covering or not, a reader that holds memtables and a version gets every value the history has at its sequence |
| Readers.IteratorMissesNone | OutdoorTribe/Pods/leveldb-library/db/db_impl.cc:1062-1155 | and an iterator shows every key that has a value there, with that value |
| Lookup.GetValue | OutdoorTribe/Pods/leveldb-library/db/db_impl.cc:1100-1145 | searching memtables and then one file of each level below 0, while writes go on, returns every value the history has in every run whose compactions start fenced, and exactly what the history says if they cover as well |
| Resurfacing.DeletedValueReads | OutdoorTribe/Pods/leveldb-library/db/version_set.cc:1403-1412 | a run of a new database in which Get through a live snapshot finds a key deleted, and after one more compaction returns the deleted value |
| EngineProofs.FlushStandsFor | OutdoorTribe/Pods/leveldb-library/db/db_impl.cc:535-566 | installing the flushed memtable's table and its log number stands for exactly the writes up to the switch |
| EngineProofs.CompactStandsFor | OutdoorTribe/Pods/leveldb-library/db/db_impl.cc:860-876 | the compacted tables stand for the same writes from smallest_snapshot on, if and only if no value is uncovered |
| EngineProofs.MoveStandsFor | OutdoorTribe/Pods/leveldb-library/db/db_impl.cc:718-733 | moving a table down a level changes no read |
| Runs.FencedIff | OutdoorTribe/Pods/leveldb-library/db/db_impl.cc:909-924 | every memtable that may be flushed to a compaction's output level lies on one side of what the compaction writes, if and only if no flush reaches that level or every key within the range of what it writes is in the range of a file at or above that level |
| Runs.SortedRunsIff | OutdoorTribe/Pods/leveldb-library/db/version_set.cc:695-745 | that condition on the version at the start of a compaction is exact: under it, and only under it, the levels are sorted runs after the compaction whatever is flushed to its output level meanwhile and however its output is cut |
| Runs.StepRuns | OutdoorTribe/Pods/leveldb-library/db/version_set.cc:695-745 | every step keeps each level below 0 a sorted run, any memtables flushed in the middle of a compaction included, if compactions start under it |
| Runs.RunRuns | OutdoorTribe/Pods/leveldb-library/db/version_set.cc:725-742 | in every such run the files of a level do not overlap, as the debug check of SaveTo demands |
| Runs.LeftAside | OutdoorTribe/Pods/leveldb-library/db/version_set.cc:1403-1412 | the next-level tables left behind lie entirely on one side of what is picked |
| Runs.JoinedGapless | OutdoorTribe/Pods/leveldb-library/db/version_set.cc:1270-1322 | the picks of PickCompaction leave no gap |
| Runs.GaplessFenced | OutdoorTribe/Pods/leveldb-library/db/db_impl.cc:909-924 | picks without a gap meet the condition |
| Runs.PickedFenced | OutdoorTribe/Pods/leveldb-library/db/version_set.cc:1270-1322 | so the picks of PickCompaction do |
| Runs.GapInterleaves | OutdoorTribe/Pods/leveldb-library/db/version_set.cc:1464-1495 | a pick that does not, as CompactRange can make it: a memtable flushed into its gap leaves overlapping tables in one level |
| Runs.BoundedReads | OutdoorTribe/Pods/leveldb-library/db/version_set.cc:1403-1412 | reads answer from the history in every run in which no compaction leaves behind a next-level table that starts at the largest user key of inputs_[1] |
| CompactionJob.OutputsRecord | OutdoorTribe/Pods/leveldb-library/db/db_impl.cc:860-876 | the files of a loop that ended well are what the edit may be recorded with: the kept entries, in tables that do not interleave |
| CompactionJob.Compact | OutdoorTribe/Pods/leveldb-library/db/db_impl.cc:885-1045 | from the start of a compaction the loop leads to a state in which its edit can be recorded if it reports success, and in which the job can be given up otherwise |
| EngineProofs.ReplayStandsFor | OutdoorTribe/Pods/leveldb-library/db/db_impl.cc:371-489 | tables built from the replayed logs, put on level 0 newest first, add exactly the replayed writes |
| EngineProofs.UnflushedIsLogged | OutdoorTribe/Pods/leveldb-library/db/db_impl.cc:553-562 | every write that no table of the descriptor on disk has is in a log numbered at least its LogNumber |
| EngineProofs.AcknowledgedSurvive | OutdoorTribe/Pods/leveldb-library/db/db_impl.cc:1185-1256 | in every reachable state of every run, crashes included, the history holds every acknowledged write not torn from an unsynced log, every one acknowledged under sync, and nothing that was never written; each entry of it is in a table of the descriptor or a log that recovery replays, unless a version or deletion that every reader sees has replaced it; and Get returns every value the history has |
| EngineProofs.AcknowledgedStays | OutdoorTribe/Pods/leveldb-library/db/db_impl.cc:280-369 | so an acknowledged write is, in every later state and across any crashes that do not tear it from a log, in those tables or logs unless replaced, and a reader for whom it is the newest version of its key gets its value; one acknowledged under sync cannot be torn |
| EngineProofs.FilesInUseExist | OutdoorTribe/Pods/leveldb-library/db/db_impl.cc:223-278 | in every reachable state the tables of the current and on-disk version, of every pinned version and of a running compaction, and its unfinished outputs, are files with their contents intact |
| EngineProofs.DeleteInv | OutdoorTribe/Pods/leveldb-library/db/db_impl.cc:223-278 | deleting obsolete files keeps the invariant, also from the flush nested in a running compaction |
| EngineProofs.FlushKeepsJob | OutdoorTribe/Pods/leveldb-library/db/db_impl.cc:909-924 | a flush recorded while a compaction runs leaves the compaction's inputs and level conditions valid |
| Recovery.RecoverLogFile | OutdoorTribe/Pods/leveldb-library/db/db_impl.cc:371-488 | every update of the log ends up in a new level-0 table, together with those that filled the same memtable and no others, whatever the numbers of the batches; max_sequence is the largest of them, and if they rise newer tables come first |
| Recovery.Recover | OutdoorTribe/Pods/leveldb-library/db/db_impl.cc:280-369 | all logs at or above LogNumber are replayed in the order of their numbers, each cut into tables where its memtables were full; file and sequence numbers end beyond all that is used, and tables are newest first if the logs were written in order |
| Recovery.ScanDirectory | OutdoorTribe/Pods/leveldb-library/db/db_impl.cc:318-344 | missing are exactly the tables of the version whose number no database file has, and the logs to replay are those at or above LogNumber and the previous one |
| Recovery.ScanFindsAll | OutdoorTribe/Pods/leveldb-library/db/db_impl.cc:318-344 | in every state of the engine no table is missing when it is reopened, and the logs found are those needed |
| Logs.RemainsInOrder | OutdoorTribe/Pods/leveldb-library/db/db_impl.cc:395-428 | logs written in order stay in order whatever records are lost |
| Recovery.LeftInOrder | OutdoorTribe/Pods/leveldb-library/db/db_impl.cc:346-360 | in every state of the engine the logs a crash leaves behind are in order |
| Recovery.Reopen | OutdoorTribe/Pods/leveldb-library/db/db_impl.cc:1474-1505 | in every state of the engine and for every loss of unsynced records, what Recover makes of the logs is a crash step of the engine |
| Recovery.DeleteObsoleteFiles | OutdoorTribe/Pods/leveldb-library/db/db_impl.cc:223-278 | a file goes exactly when no background error is recorded and the rule for its type does not keep it |
| Recovery.DeletionIsEngine | OutdoorTribe/Pods/leveldb-library/db/db_impl.cc:223-278 | over a directory that rule deletes exactly the logs and tables the engine's deletion step deletes |
| DbIter.LiveIsRead | OutdoorTribe/Pods/leveldb-library/db/db_iter.cc:168-198 | the keys the iterator specification calls live at a sequence are those a read at that sequence finds a value for |
| DbIter.Iter.FindNextUserEntry | OutdoorTribe/Pods/leveldb-library/db/db_iter.cc:168-198 | scanning forward stops at the least live key in the wanted range, or nowhere if there is none |
| DbIter.Iter.FindPrevUserEntry | OutdoorTribe/Pods/leveldb-library/db/db_iter.cc:227-267 | scanning backward stops with the greatest live key below the bound saved with its visible value, the iterator standing before its entries |
| DbIter.Iter.Next | OutdoorTribe/Pods/leveldb-library/db/db_iter.cc:141-166 | moves to the least live key above the current one, from either direction |
| DbIter.Iter.Prev | OutdoorTribe/Pods/leveldb-library/db/db_iter.cc:200-225 | moves to the greatest live key below the current one, from either direction |
| DbIter.Iter.Seek | OutdoorTribe/Pods/leveldb-library/db/db_iter.cc:269-281 | moves to the least live key at or above the target |
| DbIter.Iter.SeekToFirst | OutdoorTribe/Pods/leveldb-library/db/db_iter.cc:283-292 | moves to the least live key |
| DbIter.Iter.SeekToLast | OutdoorTribe/Pods/leveldb-library/db/db_iter.cc:294-299 | moves to the greatest live key |
| DbIter.MovesUnique | OutdoorTribe/Pods/leveldb-library/db/db_iter.cc:141-299 | the cursor specification leaves one answer for each call |
| DbIter.Perform | OutdoorTribe/Pods/leveldb-library/db/db_iter.cc:63-71 | one call moves the cursor as specified and reports the value a read of that key finds |
| DbIter.Drive | OutdoorTribe/Pods/leveldb-library/db/db_iter.cc:141-299 | any sequence of calls, direction switches included, reports the keys and values of a cursor over exactly the live keys |
| GroupCommit.BuildBatchGroup | OutdoorTribe/Pods/leveldb-library/db/db_impl.cc:1260-1306 | the group is the longest run of writers from the front that may each join (sync only under a syncing leader, size within the limit), and the batch is theirs concatenated in queue order |
| GroupCommit.GroupSizes | OutdoorTribe/Pods/leveldb-library/db/db_impl.cc:1266-1294 | a group is at most a megabyte, or 128 kilobytes more than a first batch no larger than that, and leaves a writer behind only for this limit or because it wants a sync the first does not |
| GroupCommit.StepInv | OutdoorTribe/Pods/leveldb-library/db/db_impl.cc:1185-1256 | arriving, leading, building and committing, with any outcome, keep the writer queue's invariant |
| GroupCommit.OneLeader | OutdoorTribe/Pods/leveldb-library/db/db_impl.cc:1191-1199 | in every interleaving at most one writer is past its wait, and it is at the front |
| GroupCommit.AppliedOnce | OutdoorTribe/Pods/leveldb-library/db/db_impl.cc:1200-1247 | a batch is applied exactly when its writer returned OK, once, and in queue order |
| GroupCommit.RangesApart | OutdoorTribe/Pods/leveldb-library/db/db_impl.cc:1201-1237 | applied batches have disjoint increasing sequence ranges up to LastSequence, without gaps inside a group |
| GroupCommit.SequenceGrows | OutdoorTribe/Pods/leveldb-library/db/db_impl.cc:1203-1237 | LastSequence advances by the group's count whether or not the group succeeded, and never goes back |
| GroupCommit.SyncErrorSticks | OutdoorTribe/Pods/leveldb-library/db/db_impl.cc:1226-1232 | in every run the background error is set exactly by a failed sync, for good, and nobody is logging then |
| GroupCommit.NothingAfterSyncError | OutdoorTribe/Pods/leveldb-library/db/db_impl.cc:1226-1232 | after it no batch is applied and no number given out |
| GroupCommit.NeverStuck | OutdoorTribe/Pods/leveldb-library/db/db_impl.cc:1185-1256 | in every run, while a writer has not returned the one at the front can take its next step |
| GroupCommit.SyncedWhenAsked | OutdoorTribe/Pods/leveldb-library/db/db_impl.cc:1282-1285 | a batch whose writer asked for sync was applied under a leader that syncs |
| GroupCommit.GroupWrites | OutdoorTribe/Pods/leveldb-library/db/db_impl.cc:1204-1222 | what the group's one batch logs and inserts is exactly its members' updates, each at the numbers its batch is accounted for |
| GroupCommit.MakeRoomForWrite | OutdoorTribe/Pods/leveldb-library/db/db_impl.cc:1310-1370 | each move is the one called for: a delay exactly when nothing is forced, none came before and level 0 has 8 files; a wait for the flush, a wait for level 0 at 12 files or a switch only when the memtable is over its size or a forced switch has not been made, in this order; the call returns at the first turn that calls for none, with success exactly when there is room and no error |
| InternalKeys.ParseAppend | OutdoorTribe/Pods/leveldb-library/db/dbformat.cc:14-23 | parsing undoes appending for every sequence below 2^56 and both types |
| InternalKeys.AppendParse | OutdoorTribe/Pods/leveldb-library/db/dbformat.h:165-175 | appending undoes parsing for every byte string that parses |
| InternalKeys.Trailer | OutdoorTribe/Pods/leveldb-library/db/dbformat.cc:14-23 | after the user key come one byte for the type and the sequence number in seven bytes, lowest first |
| InternalKeys.CompareOrder | OutdoorTribe/Pods/leveldb-library/db/dbformat.cc:51-67 | the comparison is a total order over any user order: increasing user key, then decreasing tag |
| InternalKeys.CompareZero | OutdoorTribe/Pods/leveldb-library/db/dbformat.cc:51-67 | it tells all keys apart when the user comparator does |
| InternalKeys.LookupFinds | OutdoorTribe/Pods/leveldb-library/db/dbformat.cc:121-138 | a version of the key sorts at or after its lookup key exactly when its sequence is at most the lookup's |
| InternalKeys.LookupApart | OutdoorTribe/Pods/leveldb-library/db/dbformat.cc:51-67 | versions of other user keys sort on the side their user key does |
| InternalKeys.BuildLookup | OutdoorTribe/Pods/leveldb-library/db/dbformat.cc:121-138 | the buffer is the length as a varint and then the internal key, and fits the estimate of 13 bytes more |
| InternalKeys.SeparatorBetween | OutdoorTribe/Pods/leveldb-library/db/dbformat.cc:69-86 | the separator is never before start, and it is before limit exactly when the user keys differ or the user comparator offered no shorter larger key, for every comparator meeting its contract |
| InternalKeys.SeparatorMayOvershoot | OutdoorTribe/Pods/leveldb-library/db/dbformat.cc:69-86 | a comparator within its contract for which the separator of two versions of one key lies after both |
| InternalKeys.SuccessorAfter | OutdoorTribe/Pods/leveldb-library/db/dbformat.cc:88-101 | the short successor is never before the key |
| InternalKeys.LexicalOrder | OutdoorTribe/Pods/leveldb-library/util/comparator.cc:25-27 | bytewise comparison is a total order that ties only equal strings |
| InternalKeys.ShortestSeparator | OutdoorTribe/Pods/leveldb-library/util/comparator.cc:29-50 | the bytewise separator is in [start, limit) when start is before limit, and start itself otherwise |
| InternalKeys.ShortSuccessor | OutdoorTribe/Pods/leveldb-library/util/comparator.cc:52-64 | the bytewise successor is not before the key and no longer, and is the key exactly when it is all 0xff |
| Wire.VarintRoundTrip64 | OutdoorTribe/Pods/nanopb/pb_decode.c:255-275 | every 64-bit value's varint decodes to it and leaves the rest of the stream |
| Wire.VarintAtMostTen | OutdoorTribe/Pods/nanopb/pb_encode.c:608-628 | and takes one to ten bytes |
| Wire.VarintRoundTrip32 | OutdoorTribe/Pods/nanopb/pb_decode.c:187-247 | the 32-bit decoder returns every value below 2^32 |
| Wire.SignExtended32 | OutdoorTribe/Pods/nanopb/pb_decode.c:216-243 | and the low word of every sign-extended negative int32 |
| Wire.ZigzagInverse | OutdoorTribe/Pods/nanopb/pb_decode.c:1285-1297 | zigzag and its inverse undo each other for every int64 and every uint64 |
| Wire.LittleEndianInverse | OutdoorTribe/Pods/nanopb/pb_decode.c:1299-1331 | fixed32 and fixed64 words read back |
| RoundTrip.ScalarDecodes | OutdoorTribe/Pods/nanopb/pb_decode.c:1334-1523 | every scalar, string and byte value that fits its field decodes from its encoding to itself |
| RoundTrip.PackedDecodes | OutdoorTribe/Pods/nanopb/pb_decode.c:424-453 | a packed array's payload decodes to its entries in order |
| RoundTrip.ValueSkips | OutdoorTribe/Pods/nanopb/pb_decode.c:321-331 | pb_skip_field passes over exactly one payload of any kind |
| RoundTrip.ZeroIsDefault | OutdoorTribe/Pods/nanopb/pb_encode.c:240-337 | a proto3 value the encoder leaves out is the default the decoder starts from, through nested messages |
| RoundTrip.DefaultOmitted | OutdoorTribe/Pods/nanopb/pb_encode.c:240-337 | a singular field writes nothing if and only if it holds its default and can be omitted: it is not a byte field of a fixed length above zero, nor a message with such a singular field or a required one, at any depth |
| RoundTrip.FieldDecodes | OutdoorTribe/Pods/nanopb/pb_decode.c:406-483 | all that a field of any rule wrote is read back into its untouched slot |
| RoundTrip.MessageDecodes | OutdoorTribe/Pods/nanopb/pb_decode.c:934-1096 | decoding with a descriptor that knows only some of the fields, at any nesting level and in any order, gives the projection of the message and uses up all bytes |
| RoundTrip.MessageRoundTrip | OutdoorTribe/Pods/nanopb/pb_encode.c:528-550 | for every well-formed descriptor and every message that fits it, decoding the encoding gives the message back and uses up all bytes |
| RoundTrip.FullTextIsRefused | OutdoorTribe/Pods/nanopb/pb_decode.c:1487-1523 | a string that fills its array is encoded but never decoded: why fitting means room for the terminator |
| Refusals.LongRefused | OutdoorTribe/Pods/nanopb/pb_decode.c:187-247 | the 32-bit varint decoder refuses every length from 2^32 to 2^63 |
| Refusals.MessageRefused | OutdoorTribe/Pods/nanopb/pb_decode.c:934-1082 | a message with a full string or such a length anywhere in it is refused |
| Refusals.RoundTripIff | OutdoorTribe/Pods/nanopb/pb_decode.c:934-1096 | of all typed messages the encoder writes without error, exactly those come back whole that leave room for every string's terminator and keep lengths within 32 bits; the others are refused |
| Peers.RecordsDecode | OutdoorTribe/Pods/nanopb/pb_decode.c:934-1096 | for any list of records a peer may send, in any order, packed or not, with unknown tags and submessages in pieces: decoding gives the message the records mean one after the other, and refuses exactly when one of them has to be refused or one of the first 64 required fields does not occur |
| Peers.UnpackedDecodes | OutdoorTribe/Pods/nanopb/pb_decode.c:454-464 | entries of a repeated field sent one by one are added to those it has, packable or not, and the rest is left |
| Peers.PackedRunDecodes | OutdoorTribe/Pods/nanopb/pb_decode.c:424-453 | so are entries sent in a packed run, so that both may be mixed |
| Peers.MissingRefused | OutdoorTribe/Pods/nanopb/pb_decode.c:1039-1079 | bytes without a record of one of the first 64 required fields are refused |
| Peers.PiecesMerge | OutdoorTribe/Pods/nanopb/pb_decode.c:1525-1547 | a submessage that occurs twice means what its records mean in one piece |
| Peers.FieldsInOrder | OutdoorTribe/Pods/nanopb/pb_encode.c:528-550 | fields are written in the order of their descriptors, each as it is written alone |
| Peers.KnownRecords | OutdoorTribe/Pods/nanopb/pb_encode.c:608-667 | the bytes of some fields, as the Protocol Buffers documentation gives them |
| Peers.KnownPacked | OutdoorTribe/Pods/nanopb/pb_encode.c:147-205 | and of a packed array |
| Peers.KnownMessage | OutdoorTribe/Pods/nanopb/pb_encode.c:717-765 | and of a message with a submessage |
| Peers.KnownZigzag | OutdoorTribe/Pods/nanopb/pb_encode.c:630-639 | the zigzag numbers of the documentation |
| Payloads.NumberTaken | OutdoorTribe/Pods/nanopb/pb_decode.c:1345-1430 | for every 64-bit word: a varint field takes the number it means, of which an int field of at most four bytes has only the low half, if the field has room for it, and refuses it otherwise |
| Payloads.BoolTaken | OutdoorTribe/Pods/nanopb/pb_decode.c:1334-1343 | every number but zero is true |
| Payloads.BytesTaken | OutdoorTribe/Pods/nanopb/pb_decode.c:1447-1575 | for every byte string: a bytes field takes it exactly when it has room, a string field when it has room for the terminator too, up to the first NUL, and a field of fixed length only that length, or nothing for zeros |
| Payloads.CutRefused | OutdoorTribe/Pods/nanopb/pb_decode.c:102-137 | a payload that stops anywhere before its end is refused |
| Payloads.WireTypeIgnored | OutdoorTribe/Pods/nanopb/pb_decode.c:406-483 | the wire type makes no difference but to tell a packed run of a repeated field of numbers |
| Payloads.GroupRefused | OutdoorTribe/Pods/nanopb/pb_decode.c:321-331 | an unknown field with a wire type other than 0, 1, 2 and 5 is refused |
| Payloads.ZeroEnds | OutdoorTribe/Pods/nanopb/pb_decode.c:934-964 | a zero byte in place of a tag ends the message, and what follows is left |
| Decoded.DecodedSound | OutdoorTribe/Pods/nanopb/pb_decode.c:1084-1096 | whatever the bytes, a decoded struct has no array or byte field over its room, no two members of a union set and every number in its C type, and can be encoded again |
| Decoded.SlotSound | OutdoorTribe/Pods/nanopb/pb_decode.c:406-483 | decoding one field keeps its slot within its descriptor |
| FieldIter.RequiredCounted | OutdoorTribe/Pods/nanopb/pb_common.c:74-79 | the iterator's required_field_index is the number of required fields before the field |
| FieldIter.Iter.constructor | OutdoorTribe/Pods/nanopb/pb_common.c:8-27 | begin stands at the first field with its address |
| FieldIter.Iter.Next | OutdoorTribe/Pods/nanopb/pb_common.c:29-85 | next goes to the following field, or wraps and says so, and the addresses are those of the field it stands at |
| FieldIter.Iter.Find | OutdoorTribe/Pods/nanopb/pb_common.c:87-104 | find reaches the field with the tag from any starting position, with the same address and required index, and stays put when there is none |
| Encoder.Buffer.Write | OutdoorTribe/Pods/nanopb/pb_encode.c:74-84 | the bytes are appended to the buffer |
| Encoder.OStream.Write | OutdoorTribe/Pods/nanopb/pb_encode.c:103-124 | succeeds exactly when the stream only counts or has room, adding exactly the bytes |
| Encoder.EncodeVarint | OutdoorTribe/Pods/nanopb/pb_encode.c:608-628 | the ten byte loop writes the varint |
| Encoder.EncodeFixed | OutdoorTribe/Pods/nanopb/pb_encode.c:641-667 | the word's bytes, lowest first |
| Encoder.EncodeScalar | OutdoorTribe/Pods/nanopb/pb_encode.c:769-911 | each scalar encoder writes its payload, or fails on a byte field over its room or for lack of room |
| Encoder.PackedSize | OutdoorTribe/Pods/nanopb/pb_encode.c:169-189 | the packed array's length by arithmetic or by a counting pass is the length of what is written |
| Encoder.EncodePackedArray | OutdoorTribe/Pods/nanopb/pb_encode.c:147-205 | tag, exact length and entries |
| Encoder.EncodeRecords | OutdoorTribe/Pods/nanopb/pb_encode.c:206-233 | one tagged record for each entry |
| Encoder.EncodeField | OutdoorTribe/Pods/nanopb/pb_encode.c:341-426 | a field by its rule: required, optional, proto3 singular, repeated, oneof |
| Encoder.EncodeSubmessage | OutdoorTribe/Pods/nanopb/pb_encode.c:717-765 | succeeds exactly when the submessage is encodable and fits, so the size check after the second pass never fails, and the length prefix is exact |
| Encoder.Encode | OutdoorTribe/Pods/nanopb/pb_encode.c:528-550 | on a counting or a writing stream, succeeds exactly when the message is encodable and there is room, and adds exactly its encoding |
| Encoder.GetEncodedSize | OutdoorTribe/Pods/nanopb/pb_encode.c:567-576 | the size reported is the number of bytes the encoder writes |
| Decoder.IStream.Read | OutdoorTribe/Pods/nanopb/pb_decode.c:102-137 | reads exactly the bytes asked for or fails at the limit |
| Decoder.DecodeVarint | OutdoorTribe/Pods/nanopb/pb_decode.c:255-275 | the loop is the 64-bit decoding function |
| Decoder.DecodeVarint32 | OutdoorTribe/Pods/nanopb/pb_decode.c:187-247 | the loop is the 32-bit decoding function, including its sign-extension rules |
| Decoder.SkipField | OutdoorTribe/Pods/nanopb/pb_decode.c:278-331 | skips what the skipping function skips |
| Decoder.MakeSubstream | OutdoorTribe/Pods/nanopb/pb_decode.c:372-385 | the substream is the delimited payload and the parent keeps what follows it |
| Decoder.CloseSubstream | OutdoorTribe/Pods/nanopb/pb_decode.c:387-400 | the parent stands after the payload whatever was read of it |
| Decoder.DecodeBytes | OutdoorTribe/Pods/nanopb/pb_decode.c:1447-1523 | lengths are checked against the field's room before anything is read |
| Decoder.DecodeField | OutdoorTribe/Pods/nanopb/pb_decode.c:406-483 | the field's slot becomes what the decoding function says, whose meaning is that of `Peers`; the stream stands after the payload |
| Decoder.DecodeMessage | OutdoorTribe/Pods/nanopb/pb_decode.c:934-1082 | the loop with its field iterator is the decoding function: same result, same failures, same bytes consumed |
| Decoder.RequiredPresent | OutdoorTribe/Pods/nanopb/pb_decode.c:1039-1079 | all of the first 64 required fields were seen |
| Decoder.DecodeInit | OutdoorTribe/Pods/nanopb/pb_decode.c:1084-1096 | defaults and then the loop |
| Transfer.Send | OutdoorTribe/Pods/nanopb/pb_encode.c:567-576 | sizing, writing into a buffer of that size and decoding with an older descriptor never fail, fill the buffer exactly and deliver the projection |
| Punycode.VarIntDecodes | OutdoorTribe/Pods/Libuv-gRPC/src/idna.c:192-218 | the digits written for a delta are the variable-length integer that section 6.2 of RFC 3492 reads back, with any weight |
| Punycode.PutVarInt | OutdoorTribe/Pods/Libuv-gRPC/src/idna.c:192-218 | the digit loop writes exactly those digits, cut off at the buffer's end |
| Punycode.NextBias | OutdoorTribe/Pods/Libuv-gRPC/src/idna.c:220-236 | halving and then dividing by 350 is the adaptation of section 6.1 of RFC 3492 |
| Punycode.AdaptLoopClosed | OutdoorTribe/Pods/Libuv-gRPC/src/idna.c:232-236 | the loop divides by 35 just until at most 455 is left, adds 36 for each division and 36 d / (d + 38) at the end |
| Punycode.EmitInserts | OutdoorTribe/Pods/Libuv-gRPC/src/idna.c:174-238 | the delta is the distance the decoder has to run to insert exactly this code point at its place |
| Punycode.NextDelta | OutdoorTribe/Pods/Libuv-gRPC/src/idna.c:174-190 | the delta under way only grows until the next code point is written, so an overflow on the way is one of that code point's delta |
| Punycode.AddScaled | OutdoorTribe/Pods/Libuv-gRPC/src/idna.c:174-181 | the overflow test fails exactly when the sum would not fit 32 bits |
| Punycode.Scan | OutdoorTribe/Pods/Libuv-gRPC/src/idna.c:183-239 | one pass for a code point keeps encoder and decoder in step, makes progress, and gives up only on a delta beyond 32 bits |
| Punycode.TextDecodes | OutdoorTribe/Pods/Libuv-gRPC/src/idna.c:156-159 | the last hyphen of the text is the separator, if there is one |
| Punycode.ToAsciiLabel | OutdoorTribe/Pods/Libuv-gRPC/src/idna.c:102-245 | invalid input is refused, overflow is reported exactly for the labels one of whose deltas needs more than 32 bits, and otherwise the output is what fits of a text that is the label itself if it is ASCII, and else decodes after "xn--" to the label |
| Punycode.KnownLabels | OutdoorTribe/Pods/Libuv-gRPC/src/idna.c:102-245 | two well-known labels decode to the names they stand for |
| HeapOrder.SwapDown | OutdoorTribe/Pods/Libuv-gRPC/src/heap-inl.h:216-229 | moving the smaller child up leaves disorder only around the moved entry, for any strict weak order |
| HeapOrder.SwapUp | OutdoorTribe/Pods/Libuv-gRPC/src/heap-inl.h:231-236 | so does moving the entry above its larger parent |
| HeapOrder.RootLeast | OutdoorTribe/Pods/Libuv-gRPC/src/heap-inl.h:33-35 | the root of an ordered heap is a least entry |
| HeapOrder.PathTo | OutdoorTribe/Pods/Libuv-gRPC/src/heap-inl.h:119-124 | the collected bits of the count lead from the root to that slot |
| Heap.Heap.Min | OutdoorTribe/Pods/Libuv-gRPC/src/heap-inl.h:67-69 | null exactly when the heap is empty, else a node no other is less than |
| Heap.Heap.SwapLinks | OutdoorTribe/Pods/Libuv-gRPC/src/heap-inl.h:72-104 | what the pointer assignments of the swap do to every node they touch |
| Heap.Heap.Swap | OutdoorTribe/Pods/Libuv-gRPC/src/heap-inl.h:72-104 | exchanges exactly two slots and leaves all parent and child links consistent |
| Heap.Heap.Walk | OutdoorTribe/Pods/Libuv-gRPC/src/heap-inl.h:126-136 | following the bits reaches the slot, its parent and its side |
| Heap.Heap.SiftUp | OutdoorTribe/Pods/Libuv-gRPC/src/heap-inl.h:143-147 | terminates with the heap in order and the same nodes |
| Heap.Heap.SiftDown | OutdoorTribe/Pods/Libuv-gRPC/src/heap-inl.h:216-229 | terminates with nothing below the node smaller than it |
| Heap.Heap.Insert | OutdoorTribe/Pods/Libuv-gRPC/src/heap-inl.h:106-148 | keeps the tree complete, linked and in order and adds exactly the new node |
| Heap.Heap.Remove | OutdoorTribe/Pods/Libuv-gRPC/src/heap-inl.h:150-237 | keeps the tree complete, linked and in order and removes exactly the given node |
| Heap.Heap.Dequeue | OutdoorTribe/Pods/Libuv-gRPC/src/heap-inl.h:239-241 | removes exactly the least node, and does nothing on an empty heap |
| Timers.LessIsStrictWeak | OutdoorTribe/Pods/Libuv-gRPC/src/timer.c:38-55 | timer_less_than is a strict weak order |
| Timers.DoKeeps | OutdoorTribe/Pods/Libuv-gRPC/src/timer.c:66-120 | no timer call lets an active timer come before one already fired, and start ids stay unique |
| Timers.FireInOrder | OutdoorTribe/Pods/Libuv-gRPC/src/timer.c:154-171 | firing the first due timer extends the order of those fired |
| Timers.FiredState | OutdoorTribe/Pods/Libuv-gRPC/src/timer.c:154-171 | a fired timer is stopped, or if it repeats active again with a deadline counted from now and a new start id; no other is touched |
| Timers.CallbackLast | OutdoorTribe/Pods/Libuv-gRPC/src/timer.c:166-170 | the callback comes after that: a timer it stops stays stopped |
| Timers.FiredDueAgain | OutdoorTribe/Pods/Libuv-gRPC/src/timer.c:110-120 | a timer just fired is due again at once exactly if it repeats and the clock is at its 64-bit end |
| Timers.StillDue | OutdoorTribe/Pods/Libuv-gRPC/src/timer.c:154-171 | at the clock's 64-bit end a due repeating timer is due after any number of firings |
| Timers.EndsIff | OutdoorTribe/Pods/Libuv-gRPC/src/timer.c:154-171 | from every state and for any calls made by the first callbacks, the loop ends if and only if after them the clock is before its last value or no due timer repeats |
| Timers.EarlyEnds | OutdoorTribe/Pods/Libuv-gRPC/src/timer.c:154-171 | so it always ends before the clock's last value |
| Timers.QuietEnds | OutdoorTribe/Pods/Libuv-gRPC/src/timer.c:154-171 | and at the last value if no due timer repeats and the callbacks only stop, close, clear a repeat or start timers without one |
| Timers.Loop.StartAt | OutdoorTribe/Pods/Libuv-gRPC/src/timer.c:66-94 | restarts an active timer, answers UV_EINVAL for a closing handle or missing callback and changes nothing then; the deadline is the loop's time plus the timeout, or the largest 64-bit number if that is beyond it, with the repeat value and a new start id; no other timer changes |
| Timers.Loop.StopAt | OutdoorTribe/Pods/Libuv-gRPC/src/timer.c:97-107 | the heap holds exactly the other active timers |
| Timers.Loop.AgainAt | OutdoorTribe/Pods/Libuv-gRPC/src/timer.c:110-120 | restarts a repeating timer with the deadline one repeat from now, clamped alike, and answers UV_EINVAL exactly when there is no callback |
| Timers.Loop.NextTimeout | OutdoorTribe/Pods/Libuv-gRPC/src/timer.c:133-151 | -1 exactly without active timers, 0 exactly when one is due, never more than the wait of any, and exact below INT_MAX |
| Timers.Loop.RunTimers | OutdoorTribe/Pods/Libuv-gRPC/src/timer.c:154-171 | whenever the loop can end it does, with each callback having done what it does; it fires in strictly increasing (timeout, start_id) order only what is due, each time the first, leaves nothing due, and with callbacks that touch no timer fires exactly what was due |
| ThreadPool.NextWork | OutdoorTribe/Pods/Libuv-gRPC/src/threadpool.c:66-117 | the worker's loop under the mutex takes what the decision function says |
| ThreadPool.PickFacts | OutdoorTribe/Pods/Libuv-gRPC/src/threadpool.c:66-117 | sleeping only when nothing is eligible; taking removes exactly one entry; the slow-work message stays while slow work is pending or the limit is reached |
| ThreadPool.StepSafe | OutdoorTribe/Pods/Libuv-gRPC/src/threadpool.c:57-315 | every step keeps every request in exactly one place with a history that fits it |
| ThreadPool.StepLive | OutdoorTribe/Pods/Libuv-gRPC/src/threadpool.c:57-160 | every step keeps the counters true, the limit, the message for pending slow work and enough workers awake |
| ThreadPool.StepDefined | OutdoorTribe/Pods/Libuv-gRPC/src/threadpool.c:57-315 | whenever a step's turn comes, what its code relies on is there: no entry queued twice, requests and loops that exist |
| ThreadPool.DoneOnce | OutdoorTribe/Pods/Libuv-gRPC/src/threadpool.c:295-315 | in every run a request's done callback comes at most once, with 0 after exactly one run or with UV_ECANCELED and no run |
| ThreadPool.HistoryGrows | OutdoorTribe/Pods/Libuv-gRPC/src/threadpool.c:295-315 | runs and callbacks are never undone |
| PoolTraces.FirstInFirstOut | OutdoorTribe/Pods/Libuv-gRPC/src/threadpool.c:66-117 | when a worker takes up a request, every waiting request of the same kind was submitted later |
| PoolTraces.CalledInOrder | OutdoorTribe/Pods/Libuv-gRPC/src/threadpool.c:295-315 | the callbacks of a loop come in the order in which its requests were finished or cancelled, none skipped |
| PoolTraces.CallingIsDone | OutdoorTribe/Pods/Libuv-gRPC/src/threadpool.c:295-315 | the request whose callback is made, and no other, gets one more outcome, UV_ECANCELED if it was cancelled and else 0 |
| PoolTraces.CancelTakes | OutdoorTribe/Pods/Libuv-gRPC/src/threadpool.c:269-292 | uv_cancel takes a request away exactly when it still waits for a worker, leaves all others, and else changes nothing |
| PoolTraces.CancelledNeverRuns | OutdoorTribe/Pods/Libuv-gRPC/src/threadpool.c:269-292 | a request cancelled while it waits never runs, and its callback gets UV_ECANCELED if it comes |
| PoolTraces.OthersComplete | OutdoorTribe/Pods/Libuv-gRPC/src/threadpool.c:295-315 | a request nobody cancelled never gets UV_ECANCELED |
| ThreadPool.SlowLimited | OutdoorTribe/Pods/Libuv-gRPC/src/threadpool.c:45-47 | in every run at most (nthreads + 1) / 2 workers run requests that were submitted as slow; pending entries are such requests and those in the work queue are none |
| ThreadPool.SubmitsRecorded | OutdoorTribe/Pods/Libuv-gRPC/src/threadpool.c:256-267 | a request keeps the loop and the kind it was submitted with |
| ThreadPool.NothingLost | OutdoorTribe/Pods/Libuv-gRPC/src/threadpool.c:269-292 | in every run each request is in exactly the queue its stage says, and pending slow work has its message in the queue |
| ThreadPool.NoLostWakeup | OutdoorTribe/Pods/Libuv-gRPC/src/threadpool.c:69-78 | in every run, if all workers wait unsignalled then there is no work at all |
| ThreadPool.WorkConserved | OutdoorTribe/Pods/Libuv-gRPC/src/threadpool.c:142-160 | in every run, while a worker waits unsignalled there are at least as many workers on their way as entries to take |
| Queue.Empty | OutdoorTribe/Pods/Libuv-gRPC/src/queue.h:39-40 | true exactly for the empty list |
| Queue.Head | OutdoorTribe/Pods/Libuv-gRPC/src/queue.h:42-43 | the first link of a list that is not empty |
| Queue.InsertTail | OutdoorTribe/Pods/Libuv-gRPC/src/queue.h:92-99 | the ring gains the link at its end |
| Queue.Remove | OutdoorTribe/Pods/Libuv-gRPC/src/queue.h:101-106 | the ring loses exactly that link, whose own pointers stay |
| Queue.Move | OutdoorTribe/Pods/Libuv-gRPC/src/queue.h:61-81 | the new head has the whole list in order, the old head none |
| Inet.RoundTrip4 | OutdoorTribe/Pods/Libuv-gRPC/src/inet.c:53-64 | every IPv4 address reads back from its dotted text |
| Inet.Pton4 | OutdoorTribe/Pods/Libuv-gRPC/src/inet.c:179-215 | the loop is the parsing function |
| Inet.FindRun | OutdoorTribe/Pods/Libuv-gRPC/src/inet.c:85-111 | the run found is the first longest run of at least two zero words, or none exists |
| Inet.FirstLongestUnique | OutdoorTribe/Pods/Libuv-gRPC/src/inet.c:88-111 | which is determined by the address |
| Inet.FormatLength | OutdoorTribe/Pods/Libuv-gRPC/src/inet.c:113-143 | the text is at most 45 characters |
| Inet.RoundTrip6 | OutdoorTribe/Pods/Libuv-gRPC/src/inet.c:218-302 | every 16-byte address reads back from its text, whichever zero run is shortened, with the embedded IPv4 forms |
| Inet.Print6 | OutdoorTribe/Pods/Libuv-gRPC/src/inet.c:67-143 | prints the address with its first longest zero run shortened, as the text form says, within the buffer, in a form that reads back |
| Inet.FormatIsText | OutdoorTribe/Pods/Libuv-gRPC/src/inet.c:113-143 | with the first longest zero run the text is the groups before it, two colons and the groups after it, in hex, the last two groups dotted exactly for the ten zero bytes followed by 0xffff and for twelve zero bytes before a word that is not zero |
| Inet.EmbedsIff | OutdoorTribe/Pods/Libuv-gRPC/src/inet.c:128-136 | the test for an embedded IPv4 address holds exactly for these |
| Inet.HexValueIff | OutdoorTribe/Pods/Libuv-gRPC/src/inet.c:229-242 | a hex digit of either case has its value |
| Inet.HexCanonical | OutdoorTribe/Pods/Libuv-gRPC/src/inet.c:137 | groups are printed in lower case without leading zeros |
| Inet.Strscpy | OutdoorTribe/Pods/Libuv-gRPC/src/strscpy.c:4-17 | the whole text with its length if it fits, else as much as fits before the terminator and an error, nothing in an empty buffer |
| Inet.Ntop4 | OutdoorTribe/Pods/Libuv-gRPC/src/inet.c:53-64 | the dotted text if it fits, which reads back, else UV_ENOSPC and nothing |
| Inet.Ntop6 | OutdoorTribe/Pods/Libuv-gRPC/src/inet.c:144-147 | the text with the first longest zero run shortened, whole if it fits and then readable, else cut off with UV_ENOSPC; 46 bytes always do |
| Inet.OpenGap | OutdoorTribe/Pods/Libuv-gRPC/src/inet.c:282-297 | the shift by hand moves the tail to the end and zeroes the gap |
| Inet.Pton6 | OutdoorTribe/Pods/Libuv-gRPC/src/inet.c:218-302 | the array code is the parsing function, failures included |
| InetForms.Parse4Iff | OutdoorTribe/Pods/Libuv-gRPC/src/inet.c:179-215 | inet_pton4 accepts exactly the texts that inet_ntop4 prints |
| InetForms.Parse6Iff | OutdoorTribe/Pods/Libuv-gRPC/src/inet.c:218-302 | inet_pton6 reads a text as an address if and only if the text spells it in a form of section 2.2 of RFC 4291: eight groups of one to four hex digits, of which the last two may be an IPv4 address, or fewer around one gap of two colons that stands for zeros |

## Left out

- LevelDB: file and directory naming, info log, statistics, GetProperty, GetApproximateSizes, read sampling, manual compactions (whose picks may have gaps); a database opened with reuse_logs or an old PrevLogNumber; shutdown.
- LevelDB user keys are modelled by their place in the comparator's order (as reals) everywhere but in `InternalKeys`, so byte strings that tie under the comparator are one key.
- Recovery.Recover: logs hold well-formed batches; records that are too short or fail their checksum are dropped by the log reader before they reach the loop.
- Recovery.RecoverLogFile: batches are numbered from 1 on, as the engine numbers them.
- Engine: an edit recorded after a flush's edit reached the descriptor although LogAndApply reported failure. Two can follow in the same background call: the flush tried again at the compaction's next item (db_impl.cc:909-924), whose edit puts a second table of the same memtable into the descriptor, and the compaction's own edit, which sets the old log number again, so that a recovery replays a log whose entries the flushed table has as well. After such a recovery two tables can hold the same entries, and level order can fail; `EngineProofs.StepInv` and what rests on it leave these runs out.
- Engine: which compaction starts when, whether it could be a trivial move, how its output is cut into files, and which of the fitting levels a flush takes depend on sizes and seeks and are left open, so runs of the model take any of them.
- Picker.VersionGet: level 0 is given newest first, where the code sorts its files by number; the statistics of a seek are left out.
- Picker.GetOverlappingInputs: both bounds are given; only a manual compaction leaves one open.
- Picker.PickCompaction: the first file is given, as `Picker.PickFirst` or a seek chooses it; the scores that choose the level, and the statistics of seeks, are left out.
- GroupCommit.AppliedOnce: batches are well formed, so inserting one into the memtable cannot fail half way.
- GroupCommit.BuildBatchGroup: the copy into tmp_batch_ is a value, so leaving the caller's batch undisturbed holds by construction.
- EngineProofs.AcknowledgedStays: recovery that itself crashes half way is the next crash step, which starts again from the descriptor and logs on disk.
- nanopb: callbacks, extensions, pointer fields and malloc, fixed-count repeated fields, default values other than zero, delimited and null-terminated entry points, PB_WITHOUT_64BIT and the 8- and 16-bit descriptor sizes; error message texts.
- Decoder.DecodeMessage: fields_seen is a set of required indices instead of two 32-bit words; the field descriptors are well formed as the generator writes them.
- Encoder.Encode: the field descriptors are well formed as the generator writes them, sizes are unbounded numbers and the whole encoding is taken to be shorter than 2^64 bytes.
- Refusals.RoundTripIff: the encoding is shorter than 2^63 bytes, as no buffer is longer.
- Wire: no agreement of the 32-bit and 64-bit varint decoders is claimed on non-canonical bytes; the 32-bit decoder's shift counter is taken to be eight bits wide.
- Heap.Heap.Insert: the element count is unbounded, so its wrap-around at 2^32 nodes is not modelled.
- Timers.Loop.RunTimers: the loop's clock does not move while callbacks run, finitely many callbacks touch timers, and the 64-bit start counter does not wrap; handle reference counting and the event loop around it are not modelled.
- ThreadPool: start-up, exit and fork handling; a request is cancelled at most once, since a second cancel would find it still linked; uv_async_send always reaches the loop.
- Queue: QUEUE_ADD, QUEUE_INSERT_HEAD and QUEUE_FOREACH.
- Punycode.ToAsciiLabel: UTF-8 decoding, the splitting of a name at its dots, and labels of 2^32 - 1 code points or more.
- Inet: scope suffixes after a percent sign and the dispatch on the address family.
