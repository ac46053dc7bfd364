/**
 The storage engine as a state machine: group writes, memtable switches,
 flushes, compactions, snapshots, readers, file deletion, crashes and recovery,
 in any order the mutex allows. Each step is one stretch of code that DBImpl
 runs without giving up the mutex, or one effect that becomes durable while the
 mutex is released.
 */
module Engine {
  import opened Bytes
  import opened Versions
  import opened Compaction
  import opened Levels
  import opened Logs

  /**
   What the descriptor file records. `flushed` and `floor` are kept for the
   specification only: the tables stand for every write up to `flushed`, and
   answer correctly for every reader at or above `floor`.
   */
  datatype Manifest = Manifest(version: Version, log: nat, last: nat, next: nat, flushed: nat, floor: nat)

  /** The memtables and version a Get or an iterator holds on to. */
  datatype View = View(seqno: nat, mem: set<Entry>, imm: set<Entry>, version: Version)

  /** A group write between releasing the mutex and taking it again. */
  datatype Writing = Writing(entries: set<Entry>, fate: Fate, sync: bool)

  /** How the log write of a group went. */
  datatype Fate = Logged | LogFailed(recorded: bool) | SyncFailed(recorded: bool)

  datatype Flush =
    | NoFlush
    | Building(table: Table)               // the table file is being written; its number is pending
    | Built(table: Table)                  // number no longer pending, edit not yet in the descriptor
    | Recorded(table: Table, level: nat)   // edit in the descriptor, version not yet installed

  /**
   What a crash and the recovery after it come to: the entries `lost` from the
   logs, of which the records `left` remain, and the result of the replay.
   */
  datatype Restart = Restart(lost: set<Entry>, left: map<nat, seq<Record>>, tables: seq<Table>,
                             last: nat, newLog: nat, next: nat, save: bool)

  datatype Job = Job(level: nat, inputs: set<Table>, base: set<Key>, smallest: nat,
                     held: Version, outputs: seq<Table>, recorded: bool, moved: bool)

  datatype DB = DB(
    lastSeq: nat, topSeq: nat, writing: Option<Writing>,
    mem: set<Entry>, imm: Option<set<Entry>>, immSeq: nat, memLog: nat,
    logs: map<nat, set<Entry>>, records: map<nat, seq<Record>>, synced: set<Entry>,
    files: map<nat, set<Entry>>, pendingOutputs: set<nat>, nextFile: nat,
    cur: Manifest, disk: Manifest, broken: bool, bgError: bool,
    snapshots: map<nat, nat>, pins: map<nat, View>,
    scheduled: bool, calls: nat, flush: Flush, job: Option<Job>,
    // the specification's record of what was written
    history: set<Entry>, attempted: set<Entry>, acked: set<Entry>, safe: set<Entry>)

  datatype Step =
    | WriteStart(ops: seq<(Key, Op)>, fate: Fate, sync: bool)
    | WriteCommit
    | Switch
    | Schedule
    | CallEnd
    | FlushStart
    | FlushFinish
    | FlushRecord(level: nat)
    | FlushInstall
    | FlushFail
    | CompactStart(level: nat, inputs: set<Table>, base: set<Key>, smallest: nat)
    | CompactOutput(entries: set<Entry>)
    | CompactRecord
    | CompactInstall
    | MoveInstall
    | CompactFail
    | MoveRecord(level: nat, table: Table)
    | GetSnapshot(id: nat)
    | ReleaseSnapshot(id: nat)
    | Pin(id: nat, snapshot: Option<nat>)
    | Unpin(id: nat)
    | Crash(restart: Restart)

  // ------------------------------------------------------- reading a state

  ghost function UpTo(es: set<Entry>, n: nat): set<Entry> { set e | e in es && e.seqno <= n }

  ghost function ImmSet(s: DB): set<Entry> { if s.imm.Some? then s.imm.value else {} }

  ghost function ViewLayers(p: View): seq<set<Entry>> { [p.mem, p.imm] + Layers(p.version) }

  ghost function Now(s: DB): View { View(s.lastSeq, s.mem, ImmSet(s), s.cur.version) }

  /** DBImpl::Get at sequence `t`. */
  ghost function GetAt(s: DB, k: Key, t: nat): Option<Bytes> {
    Seen(Get(ViewLayers(Now(s)), k, t))
  }

  ghost function LogsFrom(logs: map<nat, set<Entry>>, n: nat): set<Entry> {
    set m, e | m in logs && n <= m && e in logs[m] :: e
  }

  // ------------------------------------------------------------ the steps

  ghost function Stamp(ops: seq<(Key, Op)>, from: nat): set<Entry> {
    set i | 0 <= i < |ops| :: Entry(ops[i].0, from + 1 + i, ops[i].1)
  }

  /** smallest_snapshot: the oldest live snapshot, or the last sequence. */
  ghost predicate IsSmallest(s: DB, n: nat) {
    && (s.snapshots == map[] ==> n == s.lastSeq)
    && (s.snapshots != map[] ==> (exists id :: id in s.snapshots && s.snapshots[id] == n)
                                 && forall id :: id in s.snapshots ==> n <= s.snapshots[id])
  }

  ghost function FlushedManifest(s: DB, t: Table, level: nat): Manifest {
    var v := if t.entries == {} then s.cur.version else AddTable(s.cur.version, level, t);
    Manifest(v, s.memLog, s.lastSeq, s.nextFile, s.immSeq, s.cur.floor)
  }

  ghost function CompactedManifest(s: DB, j: Job): Manifest {
    Manifest(Replace(s.cur.version, j.level, j.inputs, j.outputs),
             s.cur.log, s.lastSeq, s.nextFile, s.cur.flushed, j.smallest)
  }

  ghost function Numbers(v: Version): set<nat> { set t | t in Tables(v) :: t.number }

  /** The file numbers DeleteObsoleteFiles must keep. */
  ghost function LiveNumbers(s: DB): set<nat> {
    s.pendingOutputs + Numbers(s.cur.version)
    + (set id, n | id in s.pins && n in Numbers(s.pins[id].version) :: n)
    + (if s.job.Some? then Numbers(s.job.value.held) else {})
  }

  ghost function DeleteObsolete(s: DB): DB {
    if s.bgError then s
    else s.(logs := map n | n in s.logs && s.cur.log <= n :: s.logs[n],
            records := map n | n in s.records && s.cur.log <= n :: s.records[n],
            files := map n | n in s.files && n in LiveNumbers(s) :: s.files[n])
  }

  ghost function Recovered(s: DB, lost: set<Entry>): set<Entry> { LogsFrom(s.logs, s.disk.log) - lost }

  /**
   What DB::Open may make of the logs and the descriptor: records are lost, but
   none that was synced; the rest is in new tables, whose numbers and order are
   right; no number is used again.
   */
  ghost predicate Restarts(s: DB, r: Restart) {
    && r.lost !! s.synced
    && r.left.Keys == s.logs.Keys
    && (forall n :: n in s.logs && n in s.records ==>
          Remains(r.left[n], s.records[n]) && LogEntries(r.left[n]) == s.logs[n] - r.lost)
    && EntriesOf(set t | t in r.tables) == Recovered(s, r.lost)
    && NewestFirst(r.tables)
    && (forall t :: t in r.tables ==> s.disk.next <= t.number < r.next)
    && (forall t, u :: t in r.tables && u in r.tables && t.number == u.number ==> t == u)
    && s.disk.last <= r.last < MAX_SEQUENCE
    && (forall e :: e in Recovered(s, r.lost) ==> e.seqno <= r.last)
    && (forall n :: n in s.logs && s.disk.log <= n ==> EndOf(r.left[n], 1) <= r.last + 1)
    && s.disk.next <= r.newLog < r.next
    && (forall n :: n in s.logs && s.disk.log <= n ==> n < r.newLog)
    && (Recovered(s, r.lost) != {} ==> r.save)
  }

  ghost predicate Enabled(s: DB, step: Step) {
    match step
    case WriteStart(ops, fate, sync) =>
      && s.writing == None && !s.bgError && s.memLog in s.logs && s.memLog in s.records
      && s.lastSeq + |ops| < MAX_SEQUENCE
      && (fate.SyncFailed? ==> sync)
    case WriteCommit => s.writing.Some?
    case Switch => s.writing == None && s.imm == None && !s.bgError
    case Schedule => !s.scheduled && !s.bgError
    case CallEnd => s.calls > 0 && s.flush == NoFlush && s.job == None
    case FlushStart =>
      s.calls > 0 && s.flush == NoFlush && s.imm.Some? && (s.job == None || !s.job.value.recorded)
    case FlushFinish => s.flush.Building?
    case FlushRecord(level) =>
      s.flush.Built? && !s.broken && FlushFits(s.cur.version, level, s.flush.table.entries)
    case FlushInstall => s.flush.Recorded?
    case FlushFail => s.flush != NoFlush
    case CompactStart(level, inputs, base, smallest) =>
      && s.calls > 0 && s.flush == NoFlush && s.job == None && s.imm == None
      && IsSmallest(s, smallest)
      && CompactionPicked(s.cur.version, level, inputs, base)
      && base <= (set e | e in EntriesOf(inputs) :: e.key)
    case CompactOutput(entries) => s.job.Some? && !s.job.value.recorded && s.flush == NoFlush
    case CompactRecord =>
      && s.job.Some? && !s.job.value.recorded && s.flush == NoFlush && !s.broken
      && var j := s.job.value;
         && EntriesOf(set t | t in j.outputs) == Kept(EntriesOf(j.inputs), j.smallest, j.base)
         && SortedRun(set t | t in j.outputs)
    case CompactInstall => s.job.Some? && s.job.value.recorded && !s.job.value.moved && s.flush == NoFlush
    case MoveInstall => s.job.Some? && s.job.value.recorded && s.job.value.moved && s.flush == NoFlush
    case CompactFail => s.job.Some? && s.flush == NoFlush
    case MoveRecord(level, table) =>
      && s.calls > 0 && s.flush == NoFlush && s.job == None && s.imm == None && !s.broken
      && InLevel(s.cur.version, level, table) && CompactionPicked(s.cur.version, level, {table}, {})
    case GetSnapshot(id) => id !in s.snapshots
    case ReleaseSnapshot(id) => id in s.snapshots
    case Pin(id, snapshot) => id !in s.pins && (snapshot.Some? ==> snapshot.value in s.snapshots)
    case Unpin(id) => id in s.pins
    case Crash(r) => Restarts(s, r)
  }

  ghost function WriteStarted(s: DB, ops: seq<(Key, Op)>, fate: Fate, sync: bool): DB
    requires s.memLog in s.logs && s.memLog in s.records
  {
    var es := Stamp(ops, s.lastSeq);
    var inLog := fate.Logged? || fate.recorded;
    var logs := if inLog then s.logs[s.memLog := s.logs[s.memLog] + es] else s.logs;
    s.(topSeq := s.lastSeq + |ops|,
       writing := Some(Writing(es, fate, sync)),
       logs := logs,
       records := if inLog then s.records[s.memLog := s.records[s.memLog] + [Record(s.lastSeq + 1, ops)]] else s.records,
       synced := if fate.Logged? && sync then s.synced + logs[s.memLog] else s.synced,
       mem := if fate.Logged? then s.mem + es else s.mem,
       history := if fate.Logged? then s.history + es else s.history,
       attempted := s.attempted + es)
  }

  ghost function WithTables(files: map<nat, set<Entry>>, tables: seq<Table>): map<nat, set<Entry>> {
    if tables == [] then files else WithTables(files, tables[1..])[tables[0].number := tables[0].entries]
  }

  /** The tables recovered from the logs go on top of level 0. */
  ghost function OpenedManifest(s: DB, r: Restart): Manifest {
    if r.save
    then Manifest(Version(r.tables + s.disk.version.l0, s.disk.version.deep), r.newLog, r.last, r.next, r.last, s.disk.floor)
    else s.disk
  }

  ghost function Reopened(s: DB, r: Restart): DB {
    var m := OpenedManifest(s, r);
    DB(r.last, r.last, None, {}, None, r.last, r.newLog,
       (map n | n in s.logs :: s.logs[n] - r.lost)[r.newLog := {}], r.left[r.newLog := []], s.synced,
       if r.save then WithTables(s.files, r.tables) else s.files,
       {}, r.next, m, m, false, false, map[], map[], false, 0, NoFlush, None,
       UpTo(s.history, s.disk.flushed) + Recovered(s, r.lost),
       s.attempted, s.acked - r.lost, s.safe)
  }

  ghost function Installed(s: DB): DB { s.(cur := s.disk, imm := None, flush := NoFlush) }

  ghost function Finished(s: DB): DB
    requires s.job.Some?
  {
    s.(cur := s.disk, job := None,
       pendingOutputs := s.pendingOutputs - (set t | t in s.job.value.outputs :: t.number))
  }

  ghost function Apply(s: DB, step: Step): DB
    requires Enabled(s, step)
  {
    match step
    case WriteStart(ops, fate, sync) => WriteStarted(s, ops, fate, sync)
    case WriteCommit =>
      var w := s.writing.value;
      s.(lastSeq := s.topSeq, writing := None,
         bgError := s.bgError || w.fate.SyncFailed?,
         acked := if w.fate.Logged? then s.acked + w.entries else s.acked,
         safe := if w.fate.Logged? && w.sync then s.safe + w.entries else s.safe)
    case Switch =>
      s.(imm := Some(s.mem), mem := {}, immSeq := s.lastSeq,
         memLog := s.nextFile, logs := s.logs[s.nextFile := {}], records := s.records[s.nextFile := []],
         nextFile := s.nextFile + 1)
    case Schedule => s.(scheduled := true, calls := s.calls + 1)
    case CallEnd => s.(scheduled := false, calls := s.calls - 1)
    case FlushStart =>
      s.(flush := Building(Table(s.nextFile, s.imm.value)),
         pendingOutputs := s.pendingOutputs + {s.nextFile},
         files := s.files[s.nextFile := s.imm.value], nextFile := s.nextFile + 1)
    case FlushFinish =>
      s.(flush := Built(s.flush.table), pendingOutputs := s.pendingOutputs - {s.flush.table.number})
    case FlushRecord(level) =>
      s.(flush := Recorded(s.flush.table, level), disk := FlushedManifest(s, s.flush.table, level))
    case FlushInstall => DeleteObsolete(Installed(s))
    case FlushFail =>
      s.(flush := NoFlush, bgError := true, broken := s.broken || s.flush.Recorded?,
         pendingOutputs := s.pendingOutputs - {s.flush.table.number})
    case CompactStart(level, inputs, base, smallest) =>
      s.(job := Some(Job(level, inputs, base, smallest, s.cur.version, [], false, false)))
    case CompactOutput(entries) =>
      var j := s.job.value;
      s.(job := Some(j.(outputs := j.outputs + [Table(s.nextFile, entries)])),
         pendingOutputs := s.pendingOutputs + {s.nextFile},
         files := s.files[s.nextFile := entries], nextFile := s.nextFile + 1)
    case CompactRecord =>
      s.(job := Some(s.job.value.(recorded := true)), disk := CompactedManifest(s, s.job.value))
    case CompactInstall => DeleteObsolete(Finished(s))
    case MoveInstall => Finished(s)
    case CompactFail =>
      s.(job := None, bgError := true, broken := s.broken || s.job.value.recorded,
         pendingOutputs := s.pendingOutputs - (set t | t in s.job.value.outputs :: t.number))
    case MoveRecord(level, table) =>
      var j := Job(level, {table}, {}, s.cur.floor, s.cur.version, [table], true, true);
      s.(job := Some(j), disk := CompactedManifest(s, j))
    case GetSnapshot(id) => s.(snapshots := s.snapshots[id := s.lastSeq])
    case ReleaseSnapshot(id) => s.(snapshots := s.snapshots - {id})
    case Pin(id, snapshot) =>
      var t := if snapshot.Some? then s.snapshots[snapshot.value] else s.lastSeq;
      s.(pins := s.pins[id := Now(s).(seqno := t)])
    case Unpin(id) => s.(pins := s.pins - {id})
    case Crash(r) => DeleteObsolete(Reopened(s, r))
  }

  // -------------------------------------------------------- the invariant

  ghost predicate NumbersOk(s: DB) {
    && s.cur.flushed <= s.disk.flushed <= s.immSeq <= s.lastSeq <= s.topSeq < MAX_SEQUENCE
    && (s.writing == None ==> s.topSeq == s.lastSeq)
    && (forall e :: e in s.history ==> e.seqno <= s.topSeq)
    && (forall e :: e in s.acked ==> e.seqno <= s.lastSeq)
    && s.cur.flushed <= s.cur.last <= s.lastSeq && s.cur.floor <= s.cur.last
    && s.disk.flushed <= s.disk.last <= s.lastSeq && s.disk.floor <= s.disk.last
    && s.disk.next <= s.nextFile
    && NoneBelow(s.snapshots, s.cur.floor)
    && (forall id :: id in s.snapshots ==> s.snapshots[id] <= s.lastSeq)
  }

  ghost predicate MemFits(history: set<Entry>, mem: set<Entry>, imm: set<Entry>, flushed: nat, immSeq: nat) {
    && (forall e :: e in mem <==> e in history && immSeq < e.seqno)
    && (forall e :: e in imm <==> e in history && flushed < e.seqno <= immSeq)
  }

  ghost predicate LogNumbers(logs: map<nat, set<Entry>>, curLog: nat, diskLog: nat, memLog: nat, nextFile: nat) {
    && curLog <= diskLog <= memLog < nextFile && memLog in logs
    && (forall n :: n in logs ==> n <= memLog)
  }

  ghost predicate LogUnique(history: set<Entry>, logs: map<nat, set<Entry>>, curLog: nat) {
    UniqueSeq(history + LogsFrom(logs, curLog))
  }

  /** The current log holds the memtable, and nothing as old as what it replaced. */
  ghost predicate MemLog(history: set<Entry>, log: set<Entry>, immSeq: nat, topSeq: nat) {
    && (forall e :: e in log ==> immSeq < e.seqno <= topSeq)
    && (forall e :: e in history && immSeq < e.seqno ==> e in log)
  }

  /** The logs before it that are still kept hold what the tables lack. */
  ghost predicate ImmLog(history: set<Entry>, logs: map<nat, set<Entry>>, curLog: nat, memLog: nat,
                         flushed: nat, immSeq: nat) {
    && (forall n, e :: n in logs && curLog <= n < memLog && e in logs[n] ==> flushed < e.seqno <= immSeq)
    && (forall e :: e in history && flushed < e.seqno <= immSeq ==> InOlderLog(logs, curLog, memLog, e))
  }

  ghost predicate InOlderLog(logs: map<nat, set<Entry>>, curLog: nat, memLog: nat, e: Entry) {
    exists n :: n in logs && curLog <= n < memLog && e in logs[n]
  }

  /** The descriptor on disk starts replay before the old logs or after them. */
  ghost predicate DiskPoint(cur: Manifest, disk: Manifest, memLog: nat, immSeq: nat) {
    || (disk.log == cur.log && disk.flushed == cur.flushed)
    || (disk.log == memLog && disk.flushed == immSeq)
  }

  /** Every write that no table has yet is in a log that is kept and replayed. */
  ghost predicate LogsOk(s: DB) {
    && LogNumbers(s.logs, s.cur.log, s.disk.log, s.memLog, s.nextFile)
    && LogUnique(s.history, s.logs, s.cur.log)
    && MemLog(s.history, s.logs[s.memLog], s.immSeq, s.topSeq)
    && ImmLog(s.history, s.logs, s.cur.log, s.memLog, s.cur.flushed, s.immSeq)
    && DiskPoint(s.cur, s.disk, s.memLog, s.immSeq)
  }

  /** The recorded batches make up the logs, and those still needed are in the order of their numbers. */
  ghost predicate RecordsOk(logs: map<nat, set<Entry>>, records: map<nat, seq<Record>>, curLog: nat, topSeq: nat) {
    && records.Keys == logs.Keys
    && (forall n :: n in logs ==> LogEntries(records[n]) == logs[n])
    && InOrder(records, curLog, 1)
    && (forall n :: n in records && curLog <= n ==> EndOf(records[n], 1) <= topSeq + 1)
  }

  /** Every reader sees a newer version of the key, or the deletion that `e` is. */
  ghost predicate Settled(writes: set<Entry>, e: Entry, floor: nat) {
    Hidden(writes, e, floor) || (e.op.Delete? && e.seqno <= floor)
  }

  /** Nothing has left the tables that a reader could still want. */
  ghost predicate LacksSettled(m: Manifest, writes: set<Entry>) {
    forall e :: e in writes && e !in Contents(m.version) ==> Settled(writes, e, m.floor)
  }

  /** The tables are in order, hold only what was written, and lack only what is settled. */
  ghost predicate TablesOk(m: Manifest, history: set<Entry>) {
    && Ordered(m.version) && Contents(m.version) <= UpTo(history, m.flushed)
    && LacksSettled(m, UpTo(history, m.flushed))
  }

  /** The tables answer for every write up to `flushed`, from `floor` on. */
  ghost predicate TablesStandFor(m: Manifest, history: set<Entry>) {
    SameReads(Contents(m.version), UpTo(history, m.flushed), m.floor)
  }

  ghost predicate Resolves(files: map<nat, set<Entry>>, t: Table, below: nat) {
    t.number in files && files[t.number] == t.entries && t.number < below
  }

  ghost predicate AllResolve(files: map<nat, set<Entry>>, v: Version, below: nat) {
    forall t :: t in Tables(v) ==> Resolves(files, t, below)
  }

  ghost predicate PinsResolve(files: map<nat, set<Entry>>, pins: map<nat, View>, below: nat) {
    forall id :: id in pins ==> AllResolve(files, pins[id].version, below)
  }

  /** A compaction's outputs are pending; a moved table is still in the version the job holds. */
  ghost predicate OutputsResolve(files: map<nat, set<Entry>>, j: Job, pending: set<nat>, below: nat) {
    forall t :: t in j.outputs ==> Resolves(files, t, below) && (t.number in pending || t in Tables(j.held))
  }

  /** No file that anything still names has been deleted or overwritten. */
  ghost predicate FilesOk(s: DB) {
    && AllResolve(s.files, s.cur.version, s.nextFile)
    && AllResolve(s.files, s.disk.version, s.disk.next)
    && PinsResolve(s.files, s.pins, s.nextFile)
    && (s.flush != NoFlush ==> Resolves(s.files, s.flush.table, s.nextFile))
    && (s.flush.Building? ==> s.flush.table.number in s.pendingOutputs)
    && (s.job.Some? ==>
          && AllResolve(s.files, s.job.value.held, s.nextFile)
          && OutputsResolve(s.files, s.job.value, s.pendingOutputs, s.nextFile))
    && (s.job.Some? && s.flush != NoFlush ==> Apart(s.flush.table, s.job.value.outputs))
  }

  ghost predicate Apart(t: Table, outputs: seq<Table>) {
    forall u :: u in outputs ==> u.number != t.number
  }

  ghost predicate JobFits(j: Job, cur: Manifest) {
    && CompactionFits(cur.version, j.level, j.inputs, j.base)
    && j.base <= (set e | e in EntriesOf(j.inputs) :: e.key)
    && (forall t :: t in j.inputs ==> t in Tables(j.held))
    && cur.floor <= j.smallest
  }

  ghost predicate JobRecorded(j: Job, cur: Manifest, disk: Manifest) {
    && EntriesOf(set t | t in j.outputs) <= EntriesOf(j.inputs)
    && disk.version == Replace(cur.version, j.level, j.inputs, j.outputs)
    && disk.log == cur.log && disk.flushed == cur.flushed && disk.floor == j.smallest
  }

  ghost predicate NoneBelow(snapshots: map<nat, nat>, n: nat) {
    forall id :: id in snapshots ==> n <= snapshots[id]
  }

  ghost predicate JobOk(s: DB) {
    s.job.Some? ==>
      && JobFits(s.job.value, s.cur)
      && s.job.value.smallest <= s.lastSeq && NoneBelow(s.snapshots, s.job.value.smallest)
      && (s.job.value.recorded ==> JobRecorded(s.job.value, s.cur, s.disk) && s.flush == NoFlush)
  }

  ghost predicate FlushRecorded(f: Flush, cur: Manifest, disk: Manifest, memLog: nat, immSeq: nat)
    requires f.Recorded?
  {
    && FlushFits(cur.version, f.level, f.table.entries)
    && disk.version == (if f.table.entries == {} then cur.version else AddTable(cur.version, f.level, f.table))
    && disk.log == memLog && disk.flushed == immSeq && disk.floor == cur.floor
  }

  ghost predicate FlushOk(s: DB) {
    && (s.flush != NoFlush ==> s.imm == Some(s.flush.table.entries))
    && (s.flush.Recorded? ==> FlushRecorded(s.flush, s.cur, s.disk, s.memLog, s.immSeq))
  }

  /** The background flag admits one call; nothing is recorded behind its back. */
  ghost predicate BackgroundOk(s: DB) {
    && s.calls == (if s.scheduled then 1 else 0)
    && (s.flush != NoFlush || s.job.Some? ==> s.scheduled)
    && (s.broken ==> s.bgError)
    && (!s.broken && !s.flush.Recorded? && (s.job == None || !s.job.value.recorded) ==> s.disk == s.cur)
  }

  /** A reader holds layers in order, of entries that were written, with every value it is owed. */
  ghost predicate ViewOk(p: View, history: set<Entry>) {
    Layered(ViewLayers(p)) && Union(ViewLayers(p)) <= history && ViewHolds(p, history)
  }

  ghost predicate ViewHolds(p: View, history: set<Entry>) {
    forall e: Entry :: Newest(history, e.key, p.seqno, e) && e.op.Put? ==> e in Union(ViewLayers(p))
  }

  ghost predicate PinsOk(pins: map<nat, View>, history: set<Entry>, lastSeq: nat) {
    forall id :: id in pins ==> pins[id].seqno <= lastSeq && ViewOk(pins[id], history)
  }

  /** A reader's view answers from the history at its own sequence. */
  ghost predicate ViewSees(p: View, history: set<Entry>) {
    forall k: Key :: Seen(Get(ViewLayers(p), k, p.seqno)) == Read(history, k, p.seqno)
  }

  ghost predicate PinsSee(pins: map<nat, View>, history: set<Entry>) {
    forall id :: id in pins ==> ViewSees(pins[id], history)
  }

  ghost predicate HistoryOk(s: DB) {
    && s.safe <= s.acked <= s.history <= s.attempted
    && s.safe <= s.synced
    && (forall n :: n in s.logs ==> s.logs[n] <= s.attempted)
    && (s.writing.Some? && s.writing.value.fate.Logged? ==> s.writing.value.entries <= s.history)
    && (s.writing.Some? && s.writing.value.fate.Logged? && s.writing.value.sync ==> s.writing.value.entries <= s.synced)
  }

  /** What every step keeps. */
  ghost predicate Inv(s: DB) {
    && NumbersOk(s)
    && MemFits(s.history, s.mem, ImmSet(s), s.cur.flushed, s.immSeq)
    && LogsOk(s) && RecordsOk(s.logs, s.records, s.cur.log, s.topSeq)
    && TablesOk(s.cur, s.history) && TablesOk(s.disk, s.history)
    && FilesOk(s) && FlushOk(s) && JobOk(s) && BackgroundOk(s)
    && PinsOk(s.pins, s.history, s.lastSeq)
    && HistoryOk(s)
  }

  /**
   What every step keeps but the record of a compaction that uncovers a value:
   the tables, those a recovery would find and those of every reader's view
   answer from the history of writes.
   */
  ghost predicate ReadsOk(s: DB) {
    && TablesStandFor(s.cur, s.history) && TablesStandFor(s.disk, s.history)
    && PinsSee(s.pins, s.history)
  }

  /** No left-behind table holds a value that the running compaction uncovers. */
  ghost predicate JobCovers(s: DB) {
    s.job.Some? ==>
      var j := s.job.value;
      Covers(s.cur.version, j.level, j.inputs, j.base, j.smallest)
  }

  /** A database just created: no tables, one empty log. */
  ghost function Fresh(): DB {
    var m := Manifest(Version([], [{}, {}, {}, {}, {}, {}]), 2, 0, 3, 0, 0);
    DB(0, 0, None, {}, None, 0, 2, map[2 := {}], map[2 := []], {}, map[], {}, 3, m, m, false, false,
       map[], map[], false, 0, NoFlush, None, {}, {}, {}, {})
  }
}
