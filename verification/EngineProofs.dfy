/**
 Every step of the engine keeps the invariant, and what follows over whole
 runs: reads come from the history, snapshots are stable, acknowledged writes
 survive crashes, and no file in use is deleted.
 */
module EngineProofs {
  import opened Bytes
  import opened Versions
  import opened Compaction
  import opened Levels
  import opened Logs
  import opened Engine

  // ------------------------------------------------- reads see the history

  lemma HistoryUnique(s: DB)
    requires LogsOk(s)
    ensures UniqueSeq(s.history)
  {
    assert s.history <= s.history + LogsFrom(s.logs, s.cur.log);
  }

  /** The memtables decide what they show; the rest is read below them. */
  ghost function Stacked(mem: set<Entry>, imm: set<Entry>, below: set<Entry>, k: Key, t: nat): Option<Entry> {
    if Visible(mem, k, t) then Latest(mem, k, t)
    else if Visible(imm, k, t) then Latest(imm, k, t)
    else Latest(below, k, t)
  }

  lemma GetStack(mem: set<Entry>, imm: set<Entry>, v: Version, seqno: nat, k: Key, t: nat)
    requires Ordered(v) && UniqueSeq(Contents(v))
    ensures Get(ViewLayers(View(seqno, mem, imm, v)), k, t) == Stacked(mem, imm, Contents(v), k, t)
  {
    var layers := ViewLayers(View(seqno, mem, imm, v));
    assert layers[0] == mem && layers[1..][0] == imm && layers[1..][1..] == Layers(v);
    LayersCover(v);
    GetFindsLatest(Layers(v), k, t);
  }

  lemma HistoryStack(h: set<Entry>, mem: set<Entry>, imm: set<Entry>, flushed: nat, immSeq: nat, k: Key, t: nat)
    requires UniqueSeq(h) && MemFits(h, mem, imm, flushed, immSeq) && flushed <= immSeq
    ensures Latest(h, k, t) == Stacked(mem, imm, UpTo(h, flushed), k, t)
  {
    assert h == mem + UpTo(h, immSeq);
    assert UpTo(h, immSeq) == imm + UpTo(h, flushed);
    ReadOver(mem, UpTo(h, immSeq), k, t);
    ReadOver(imm, UpTo(h, flushed), k, t);
  }

  /** Memtable over immutable memtable over tables is a read of the history. */
  lemma ReadsAreHistory(s: DB, k: Key, t: nat)
    requires MemFits(s.history, s.mem, ImmSet(s), s.cur.flushed, s.immSeq) && s.cur.flushed <= s.immSeq
    requires UniqueSeq(s.history) && TablesOk(s.cur, s.history) && TablesStandFor(s.cur, s.history)
    requires s.cur.floor <= t
    ensures GetAt(s, k, t) == Read(s.history, k, t)
  {
    assert UniqueSeq(Contents(s.cur.version));
    GetStack(s.mem, ImmSet(s), s.cur.version, s.lastSeq, k, t);
    HistoryStack(s.history, s.mem, ImmSet(s), s.cur.flushed, s.immSeq, k, t);
    assert Read(Contents(s.cur.version), k, t) == Read(UpTo(s.history, s.cur.flushed), k, t);
  }

  /** Writes newer than a reader do not reach it. */
  lemma NewerWritesUnseen(h: set<Entry>, h': set<Entry>, k: Key, t: nat)
    requires UniqueSeq(h') && h <= h'
    requires forall e :: e in h' && e !in h ==> t < e.seqno
    ensures Read(h', k, t) == Read(h, k, t)
  {
    SameVisible(h', h, k, t);
  }

  lemma PinsUnderGrowth(pins: map<nat, View>, h: set<Entry>, h': set<Entry>, lastSeq: nat)
    requires PinsOk(pins, h, lastSeq) && PinsSee(pins, h) && h <= h' && UniqueSeq(h')
    requires forall e :: e in h' && e !in h ==> lastSeq < e.seqno
    ensures PinsSee(pins, h')
  {
    forall id, k: Key | id in pins
      ensures Seen(Get(ViewLayers(pins[id]), k, pins[id].seqno)) == Read(h', k, pins[id].seqno)
    {
      assert ViewSees(pins[id], h);
      NewerWritesUnseen(h, h', k, pins[id].seqno);
    }
  }

  lemma SameUpTo(h: set<Entry>, h': set<Entry>, n: nat)
    requires h <= h' && forall e :: e in h' && e !in h ==> n < e.seqno
    ensures UpTo(h', n) == UpTo(h, n)
  {
  }

  // ----------------------------------------------------------- write path

  lemma StampRange(ops: seq<(Key, Op)>, from: nat)
    ensures forall e :: e in Stamp(ops, from) ==> from < e.seqno <= from + |ops|
    ensures UniqueSeq(Stamp(ops, from))
  {
  }

  lemma LogEntryBounds(s: DB, e: Entry)
    requires LogsOk(s) && s.immSeq <= s.topSeq && e in LogsFrom(s.logs, s.cur.log)
    ensures e.seqno <= s.topSeq
  {
    var n :| n in s.logs && s.cur.log <= n && e in s.logs[n];
  }

  lemma WriteStartUnique(s: DB, ops: seq<(Key, Op)>, fate: Fate, sync: bool)
    requires Inv(s) && Enabled(s, WriteStart(ops, fate, sync))
    ensures var s' := WriteStarted(s, ops, fate, sync); LogUnique(s'.history, s'.logs, s'.cur.log)
  {
    hide MemFits, RecordsOk, TablesOk, FilesOk, FlushOk, JobOk, BackgroundOk, PinsOk, HistoryOk;
    var s' := WriteStarted(s, ops, fate, sync);
    var es := Stamp(ops, s.lastSeq);
    StampRange(ops, s.lastSeq);
    var a, a' := s.history + LogsFrom(s.logs, s.cur.log), s'.history + LogsFrom(s'.logs, s'.cur.log);
    forall e | e in a' ensures e in a || e in es {
      if e in LogsFrom(s'.logs, s'.cur.log) {
        var n :| n in s'.logs && s.cur.log <= n && e in s'.logs[n];
        assert e in s.logs[n] ==> e in LogsFrom(s.logs, s.cur.log);
      }
    }
    forall e | e in a ensures e.seqno <= s.lastSeq {
      if e in LogsFrom(s.logs, s.cur.log) { LogEntryBounds(s, e); }
    }
  }

  lemma WriteStartLogs(s: DB, ops: seq<(Key, Op)>, fate: Fate, sync: bool)
    requires Inv(s) && Enabled(s, WriteStart(ops, fate, sync))
    ensures LogsOk(WriteStarted(s, ops, fate, sync))
  {
    hide MemFits, RecordsOk, TablesOk, FilesOk, FlushOk, JobOk, BackgroundOk, PinsOk, HistoryOk, LogUnique;
    var s' := WriteStarted(s, ops, fate, sync);
    StampRange(ops, s.lastSeq);
    WriteStartUnique(s, ops, fate, sync);
    forall e | e in s'.history && s'.cur.flushed < e.seqno <= s'.immSeq
      ensures InOlderLog(s'.logs, s.cur.log, s.memLog, e)
    {
      assert InOlderLog(s.logs, s.cur.log, s.memLog, e);
      var n :| n in s.logs && s.cur.log <= n < s.memLog && e in s.logs[n];
      assert e in s'.logs[n];
    }
  }

  lemma WriteStartHistory(s: DB, ops: seq<(Key, Op)>, fate: Fate, sync: bool)
    requires Inv(s) && Enabled(s, WriteStart(ops, fate, sync))
    ensures var s' := WriteStarted(s, ops, fate, sync);
            HistoryOk(s') && MemFits(s'.history, s'.mem, ImmSet(s'), s'.cur.flushed, s'.immSeq)
  {
    hide LogsOk, RecordsOk, FilesOk, JobOk, FlushOk, BackgroundOk, TablesOk, PinsOk;
    StampRange(ops, s.lastSeq);
  }

  lemma WriteStartGrowth(s: DB, ops: seq<(Key, Op)>, fate: Fate, sync: bool)
    requires Inv(s) && Enabled(s, WriteStart(ops, fate, sync))
    ensures var s' := WriteStarted(s, ops, fate, sync);
            && UpTo(s'.history, s.cur.flushed) == UpTo(s.history, s.cur.flushed)
            && UpTo(s'.history, s.disk.flushed) == UpTo(s.history, s.disk.flushed)
            && s.history <= s'.history && UniqueSeq(s'.history)
            && forall e :: e in s'.history && e !in s.history ==> s.lastSeq < e.seqno
  {
    hide RecordsOk, FilesOk, JobOk, FlushOk, BackgroundOk, TablesOk, PinsOk, HistoryOk, MemFits, UpTo;
    var s' := WriteStarted(s, ops, fate, sync);
    StampRange(ops, s.lastSeq);
    WriteStartLogs(s, ops, fate, sync);
    HistoryUnique(s');
    SameUpTo(s.history, s'.history, s.cur.flushed);
    SameUpTo(s.history, s'.history, s.disk.flushed);
  }

  lemma StampIsBatch(ops: seq<(Key, Op)>, from: nat)
    ensures Stamp(ops, from) == BatchOf(Record(from + 1, ops))
  {
  }

  lemma WrittenLogs(s: DB, ops: seq<(Key, Op)>, fate: Fate, sync: bool)
    requires Enabled(s, WriteStart(ops, fate, sync))
    ensures var s', r := WriteStarted(s, ops, fate, sync), Record(s.lastSeq + 1, ops);
            && s'.cur == s.cur && s'.topSeq == s.lastSeq + |ops|
            && ((s'.logs == s.logs && s'.records == s.records)
                || (&& s'.logs == s.logs[s.memLog := s.logs[s.memLog] + BatchOf(r)]
                    && s'.records == s.records[s.memLog := s.records[s.memLog] + [r]]))
  {
    StampIsBatch(ops, s.lastSeq);
    hide Stamp, BatchOf;
  }

  /** A batch goes on the current log after everything logged before. */
  lemma WriteStartRecords(s: DB, ops: seq<(Key, Op)>, fate: Fate, sync: bool)
    requires Inv(s) && Enabled(s, WriteStart(ops, fate, sync))
    ensures var s' := WriteStarted(s, ops, fate, sync); RecordsOk(s'.logs, s'.records, s'.cur.log, s'.topSeq)
  {
    hide FilesOk, JobOk, FlushOk, BackgroundOk, TablesOk, PinsOk, HistoryOk, MemFits, LogUnique, MemLog, ImmLog, DiskPoint;
    hide WriteStarted, RecordsOk;
    WrittenLogs(s, ops, fate, sync);
    RecordAdded(s.logs, s.records, s.cur.log, s.topSeq, s.memLog, Record(s.lastSeq + 1, ops));
    MoreRoom(s.logs, s.records, s.cur.log, s.topSeq, s.lastSeq + |ops|);
  }

  lemma MoreRoom(logs: map<nat, set<Entry>>, records: map<nat, seq<Record>>, curLog: nat, topSeq: nat, topSeq': nat)
    requires RecordsOk(logs, records, curLog, topSeq) && topSeq <= topSeq'
    ensures RecordsOk(logs, records, curLog, topSeq')
  {
    hide Ascending, LogEntries, EndOf;
  }

  lemma RecordAdded(logs: map<nat, set<Entry>>, records: map<nat, seq<Record>>, curLog: nat, topSeq: nat, memLog: nat, r: Record)
    requires RecordsOk(logs, records, curLog, topSeq) && memLog in logs && curLog <= memLog && r.first == topSeq + 1
    requires forall n :: n in logs ==> n <= memLog
    ensures RecordsOk(logs[memLog := logs[memLog] + BatchOf(r)], records[memLog := records[memLog] + [r]], curLog, topSeq + |r.ops|)
  {
    hide Ascending, LogEntries, EndOf, BatchOf;
    var was := records[memLog];
    LogSnoc(was, r);
    EndStart(was);
    AscendingSnoc(was, r, 1);
    forall n | n in records && curLog <= n < memLog ensures Ascending(was + [r], EndOf(records[n], 1)) {
      EndFrom(was, EndOf(records[n], 1));
      AscendingSnoc(was, r, EndOf(records[n], 1));
    }
  }

  lemma EndStart(rs: seq<Record>)
    requires Ascending(rs, 1)
    ensures 1 <= EndOf(rs, 1)
  {
    EndGrows(rs, 1);
  }

  /** The end of a log does not depend on where it starts, unless it is empty. */
  lemma EndFrom(rs: seq<Record>, from: nat)
    ensures EndOf(rs, from) == if rs == [] then from else EndOf(rs, 1)
  {
  }

  /** Later writes owe a reader no more values. */
  lemma PinsOkGrow(pins: map<nat, View>, h: set<Entry>, h': set<Entry>, lastSeq: nat)
    requires PinsOk(pins, h, lastSeq) && h <= h' && forall e :: e in h' && e !in h ==> lastSeq < e.seqno
    ensures PinsOk(pins, h', lastSeq)
  {
    hide Layered, Union, ViewLayers;
    forall id | id in pins ensures ViewOk(pins[id], h') {
      assert ViewOk(pins[id], h);
    }
  }

  lemma WriteStartInv(s: DB, ops: seq<(Key, Op)>, fate: Fate, sync: bool)
    requires Inv(s) && Enabled(s, WriteStart(ops, fate, sync))
    ensures Inv(Apply(s, WriteStart(ops, fate, sync)))
  {
    hide LogsOk, RecordsOk, HistoryOk, AllResolve, PinsResolve, OutputsResolve, Apart, Resolves;
    hide JobFits, JobRecorded, FlushRecorded, FlushFits, MemFits, IsSmallest, Stamp, UpTo, Ordered, ViewOk;
    StampRange(ops, s.lastSeq);
    WriteStartRecords(s, ops, fate, sync);
    WriteStartLogs(s, ops, fate, sync);
    WriteStartHistory(s, ops, fate, sync);
    WriteStartGrowth(s, ops, fate, sync);
    PinsOkGrow(s.pins, s.history, WriteStarted(s, ops, fate, sync).history, s.lastSeq);
  }

  lemma WriteCommitInv(s: DB)
    requires Inv(s) && Enabled(s, WriteCommit)
    ensures Inv(Apply(s, WriteCommit))
  {
    hide MemFits, LogNumbers, LogUnique, MemLog, ImmLog, DiskPoint, RecordsOk, TablesOk, AllResolve, ViewOk;
    hide PinsResolve, OutputsResolve, Apart, JobFits, JobRecorded, FlushRecorded, Resolves, FlushFits, IsSmallest;
  }

  lemma EmptyLogAdded(logs: map<nat, set<Entry>>, n: nat, from: nat)
    requires n !in logs
    ensures LogsFrom(logs[n := {}], from) == LogsFrom(logs, from)
  {
    var logs' := logs[n := {}];
    forall e | e in LogsFrom(logs, from) ensures e in LogsFrom(logs', from) {
      var m :| m in logs && from <= m && e in logs[m];
      assert m in logs' && e in logs'[m];
    }
  }

  /** After a switch the old current log is one of the older logs. */
  lemma SwitchOlderLogs(history: set<Entry>, logs: map<nat, set<Entry>>, curLog: nat, memLog: nat, newLog: nat,
                        flushed: nat, immSeq: nat, topSeq: nat)
    requires memLog in logs && curLog <= memLog < newLog && newLog !in logs && flushed <= immSeq
    requires forall n :: n in logs ==> n <= memLog
    requires MemLog(history, logs[memLog], immSeq, topSeq)
    requires ImmLog(history, logs, curLog, memLog, flushed, immSeq)
    requires immSeq <= topSeq
    ensures ImmLog(history, logs[newLog := {}], curLog, newLog, flushed, topSeq)
  {
    var logs' := logs[newLog := {}];
    forall e | e in history && flushed < e.seqno <= topSeq ensures InOlderLog(logs', curLog, newLog, e) {
      if e.seqno <= immSeq {
        assert InOlderLog(logs, curLog, memLog, e);
        var n :| n in logs && curLog <= n < memLog && e in logs[n];
        assert n in logs' && e in logs'[n];
      } else {
        assert memLog in logs' && e in logs'[memLog];
      }
    }
  }

  lemma SwitchLogs(s: DB)
    requires Inv(s) && Enabled(s, Switch)
    ensures LogsOk(Apply(s, Switch))
  {
    EmptyLogAdded(s.logs, s.nextFile, s.cur.log);
    SwitchOlderLogs(s.history, s.logs, s.cur.log, s.memLog, s.nextFile, s.cur.flushed, s.immSeq, s.topSeq);
  }

  lemma SwitchRecords(s: DB)
    requires Inv(s) && Enabled(s, Switch)
    ensures var s' := Apply(s, Switch); RecordsOk(s'.logs, s'.records, s'.cur.log, s'.topSeq)
  {
    hide MemFits, LogUnique, MemLog, ImmLog, DiskPoint, TablesOk, FilesOk, JobOk, FlushOk, PinsOk, HistoryOk, BackgroundOk;
    hide InOrder, LogEntries, EndOf;
    NewLogRecords(s.logs, s.records, {}, s.nextFile, s.cur.log, s.cur.log, s.topSeq);
    assert (map n | n in s.logs :: s.logs[n] - {}) == s.logs;
  }

  /** A new empty log goes after those kept. */
  lemma NewLogRecords(logs: map<nat, set<Entry>>, left: map<nat, seq<Record>>, lost: set<Entry>, newLog: nat,
                      from: nat, from': nat, last: nat)
    requires left.Keys == logs.Keys && InOrder(left, from, 1) && from <= from'
    requires forall n :: n in left && from <= n ==> n < newLog && EndOf(left[n], 1) <= last + 1
    requires forall n :: n in left ==> LogEntries(left[n]) == logs[n] - lost
    ensures RecordsOk((map n | n in logs :: logs[n] - lost)[newLog := {}], left[newLog := []], from', last)
  {
    forall n | n in left && from <= n ensures 1 <= EndOf(left[n], 1) { EndStart(left[n]); }
    assert LogEntries([]) == {} && EndOf([], 1) == 1 && forall n: nat :: Ascending([], n);
    hide Ascending, LogEntries, EndOf;
    var left' := left[newLog := []];
    assert forall n :: n in left' && n != newLog ==> n in left && left'[n] == left[n];
    assert InOrder(left', from', 1);
  }

  lemma SwitchInv(s: DB)
    requires Inv(s) && Enabled(s, Switch)
    ensures Inv(Apply(s, Switch))
  {
    hide LogsOk, RecordsOk, ViewOk, TablesOk, Apart, JobFits, JobRecorded;
    var s' := Apply(s, Switch);
    SwitchLogs(s);
    SwitchRecords(s);
    forall e ensures e in ImmSet(s') <==> e in s'.history && s'.cur.flushed < e.seqno <= s'.immSeq {
      assert e in ImmSet(s) <==> e in s.history && s.cur.flushed < e.seqno <= s.immSeq;
    }
  }

  // ------------------------------------------------------- small steps

  lemma GetSnapshotInv(s: DB, id: nat)
    requires Inv(s) && Enabled(s, GetSnapshot(id))
    ensures Inv(Apply(s, GetSnapshot(id)))
  {
    hide MemFits, LogNumbers, LogUnique, MemLog, ImmLog, DiskPoint, RecordsOk, TablesOk, AllResolve, PinsResolve;
    hide OutputsResolve, Apart, JobFits, JobRecorded, FlushRecorded, ViewOk, Resolves, FlushFits, IsSmallest;
  }

  lemma ReleaseSnapshotInv(s: DB, id: nat)
    requires Inv(s) && Enabled(s, ReleaseSnapshot(id))
    ensures Inv(Apply(s, ReleaseSnapshot(id)))
  {
    hide MemFits, LogNumbers, LogUnique, MemLog, ImmLog, DiskPoint, RecordsOk, TablesOk, AllResolve, PinsResolve;
    hide OutputsResolve, Apart, JobFits, JobRecorded, FlushRecorded, ViewOk, Resolves, FlushFits, IsSmallest;
    var s' := Apply(s, ReleaseSnapshot(id));
    assert NoneBelow(s'.snapshots, s.cur.floor);
    if s.job.Some? { assert NoneBelow(s'.snapshots, s.job.value.smallest); }
  }

  lemma ScheduleInv(s: DB, step: Step)
    requires Inv(s) && Enabled(s, step) && (step.Schedule? || step.CallEnd?)
    ensures Inv(Apply(s, step))
  {
    hide MemFits, LogNumbers, LogUnique, MemLog, ImmLog, DiskPoint, RecordsOk, TablesOk, AllResolve, PinsResolve;
    hide OutputsResolve, Apart, JobFits, JobRecorded, FlushRecorded, ViewOk, Resolves, FlushFits, IsSmallest;
  }

  lemma OtherPins(s: DB, pins: map<nat, View>)
    requires Inv(s) && PinsOk(pins, s.history, s.lastSeq) && PinsResolve(s.files, pins, s.nextFile)
    ensures Inv(s.(pins := pins))
  {
    hide MemFits, LogNumbers, LogUnique, MemLog, ImmLog, DiskPoint, RecordsOk, TablesOk, AllResolve, PinsOk, PinsResolve;
    hide OutputsResolve, Apart, JobFits, JobRecorded, FlushRecorded, Resolves;
  }

  lemma UnpinInv(s: DB, id: nat)
    requires Inv(s) && Enabled(s, Unpin(id))
    ensures Inv(Apply(s, Unpin(id)))
  {
    hide *;
    FewerPins(s, id);
    OtherPins(s, s.pins - {id});
    AppliedUnpin(s, id);
  }

  lemma AppliedUnpin(s: DB, id: nat)
    requires Enabled(s, Unpin(id))
    ensures Apply(s, Unpin(id)) == s.(pins := s.pins - {id})
  {
  }

  lemma AppliedPin(s: DB, id: nat, snapshot: Option<nat>)
    requires Enabled(s, Pin(id, snapshot))
    ensures Apply(s, Pin(id, snapshot)) == s.(pins := Apply(s, Pin(id, snapshot)).pins)
  {
    hide Now;
  }

  lemma FewerPins(s: DB, id: nat)
    requires Inv(s)
    ensures PinsOk(s.pins - {id}, s.history, s.lastSeq) && PinsResolve(s.files, s.pins - {id}, s.nextFile)
  {
    hide NumbersOk, MemFits, LogsOk, RecordsOk, TablesOk, FlushOk, JobOk, BackgroundOk, HistoryOk, ViewOk, AllResolve;
  }

  lemma PinInv(s: DB, id: nat, snapshot: Option<nat>)
    requires Inv(s) && Enabled(s, Pin(id, snapshot))
    ensures Inv(Apply(s, Pin(id, snapshot)))
  {
    hide *;
    MorePins(s, id, snapshot);
    OtherPins(s, Apply(s, Pin(id, snapshot)).pins);
    AppliedPin(s, id, snapshot);
  }

  lemma MorePins(s: DB, id: nat, snapshot: Option<nat>)
    requires Inv(s) && Enabled(s, Pin(id, snapshot))
    ensures var pins := Apply(s, Pin(id, snapshot)).pins;
            PinsOk(pins, s.history, s.lastSeq) && PinsResolve(s.files, pins, s.nextFile)
  {
    hide MemFits, LogsOk, RecordsOk, TablesOk, FlushOk, JobOk, BackgroundOk, HistoryOk, AllResolve, Layered, Union;
    var t := Apply(s, Pin(id, snapshot)).pins[id].seqno;
    NowOk(s, t);
    hide ViewLayers, ViewOk;
  }

  lemma UnionOfView(p: View)
    requires Ordered(p.version)
    ensures Union(ViewLayers(p)) == p.mem + p.imm + Contents(p.version)
  {
    var layers := ViewLayers(p);
    assert layers[0] == p.mem && layers[1..][0] == p.imm && layers[1..][1..] == Layers(p.version);
    LayersCover(p.version);
  }

  lemma StackLayered(p: View)
    requires Ordered(p.version)
    requires forall e, f :: e in p.mem && f in p.imm + Contents(p.version) ==> f.seqno < e.seqno
    requires forall e, f :: e in p.imm && f in Contents(p.version) ==> f.seqno < e.seqno
    ensures Layered(ViewLayers(p))
  {
    var layers, deep := ViewLayers(p), Layers(p.version);
    LayersCover(p.version);
    forall j, f | 0 <= j < |deep| && f in deep[j] ensures f in Contents(p.version) { InUnion(deep, f); }
    hide Layers, Contents, Ordered;
    forall i, j, e: Entry, f: Entry | 0 <= i < j < |layers| && e in layers[i] && f in layers[j] && e.key == f.key
      ensures f.seqno < e.seqno
    {
      if j >= 2 { assert layers[j] == deep[j - 2]; }
      if i >= 2 { assert layers[i] == deep[i - 2]; }
    }
  }

  lemma NowOk(s: DB, t: nat)
    requires MemFits(s.history, s.mem, ImmSet(s), s.cur.flushed, s.immSeq) && s.cur.flushed <= s.immSeq
    requires TablesOk(s.cur, s.history) && s.cur.floor <= t
    ensures ViewOk(Now(s).(seqno := t), s.history)
  {
    var p := Now(s).(seqno := t);
    assert forall f :: f in Contents(s.cur.version) ==> f in s.history && f.seqno <= s.cur.flushed;
    hide Ordered, Contents;
    UnionOfView(p);
    StackLayered(p);
    hide ViewLayers, Union, Layered;
    forall e: Entry | Newest(s.history, e.key, t, e) && e.op.Put? ensures e in Union(ViewLayers(p)) {
      NewestHeld(s.cur, s.history, t, e);
    }
  }

  /** A value that is the newest version for some reader is in the tables once it is flushed. */
  lemma NewestHeld(m: Manifest, h: set<Entry>, t: nat, e: Entry)
    requires TablesOk(m, h) && m.floor <= t && Newest(h, e.key, t, e) && e.op.Put?
    ensures e.seqno <= m.flushed ==> e in Contents(m.version)
  {
    hide Ordered, Contents;
    assert e.seqno <= m.flushed ==> e in UpTo(h, m.flushed) && !Hidden(UpTo(h, m.flushed), e, m.floor);
  }

  // -------------------------------------------------------------- files

  lemma FileAdded(files: map<nat, set<Entry>>, v: Version, below: nat, n: nat, es: set<Entry>)
    requires AllResolve(files, v, below) && below <= n
    ensures AllResolve(files[n := es], v, below) && AllResolve(files[n := es], v, n + 1)
  {
  }

  lemma FileAddedOk(s: DB, es: set<Entry>)
    requires FilesOk(s) && s.disk.next <= s.nextFile
    ensures var files := s.files[s.nextFile := es];
            && AllResolve(files, s.cur.version, s.nextFile + 1)
            && AllResolve(files, s.disk.version, s.disk.next)
            && PinsResolve(files, s.pins, s.nextFile + 1)
            && (s.job.Some? ==>
                  && AllResolve(files, s.job.value.held, s.nextFile + 1)
                  && OutputsResolve(files, s.job.value, s.pendingOutputs + {s.nextFile}, s.nextFile + 1)
                  && Apart(Table(s.nextFile, es), s.job.value.outputs))
  {
    FileAdded(s.files, s.cur.version, s.nextFile, s.nextFile, es);
    FileAdded(s.files, s.disk.version, s.disk.next, s.nextFile, es);
    forall id | id in s.pins ensures AllResolve(s.files[s.nextFile := es], s.pins[id].version, s.nextFile + 1) {
      FileAdded(s.files, s.pins[id].version, s.nextFile, s.nextFile, es);
    }
    if s.job.Some? { FileAdded(s.files, s.job.value.held, s.nextFile, s.nextFile, es); }
  }

  lemma LiveResolve(files: map<nat, set<Entry>>, live: set<nat>, v: Version, below: nat)
    requires AllResolve(files, v, below) && Numbers(v) <= live
    ensures AllResolve(map n | n in files && n in live :: files[n], v, below)
  {
    forall t | t in Tables(v) ensures t.number in live { assert t.number in Numbers(v); }
  }

  /** DeleteObsoleteFiles keeps every table and log the invariant speaks of. */
  lemma DeleteInv(s: DB)
    requires Inv(s) && s.flush == NoFlush && s.disk == s.cur
    ensures Inv(DeleteObsolete(s))
  {
    hide LogsOk, RecordsOk, FilesOk, TablesOk, MemFits, ViewOk;
    if !s.bgError {
      DeleteFiles(s);
      DeleteLogs(s);
      DeleteRecords(s);
    }
  }

  lemma AppliedInstall(s: DB)
    requires Enabled(s, FlushInstall)
    ensures Apply(s, FlushInstall) == DeleteObsolete(Installed(s))
  {
    hide DeleteObsolete, Installed;
  }

  lemma AppliedFinish(s: DB)
    requires Enabled(s, CompactInstall)
    ensures s.job.Some? && Apply(s, CompactInstall) == DeleteObsolete(Finished(s))
  {
    hide DeleteObsolete, Finished;
  }

  lemma AppliedCrash(s: DB, r: Restart)
    requires Enabled(s, Crash(r))
    ensures Apply(s, Crash(r)) == DeleteObsolete(Reopened(s, r))
  {
    hide DeleteObsolete, Reopened;
  }

  lemma DeleteFiles(s: DB)
    requires Inv(s) && s.flush == NoFlush && s.disk == s.cur && !s.bgError
    ensures FilesOk(DeleteObsolete(s))
  {
    var live := LiveNumbers(s);
    LiveResolve(s.files, live, s.cur.version, s.nextFile);
    LiveResolve(s.files, live, s.disk.version, s.disk.next);
    forall id | id in s.pins
      ensures AllResolve(map n | n in s.files && n in live :: s.files[n], s.pins[id].version, s.nextFile)
    {
      forall n | n in Numbers(s.pins[id].version) ensures n in live {}
      LiveResolve(s.files, live, s.pins[id].version, s.nextFile);
    }
    if s.job.Some? {
      var held := s.job.value.held;
      LiveResolve(s.files, live, held, s.nextFile);
      forall t | t in Tables(held) ensures t.number in live { assert t.number in Numbers(held); }
    }
  }

  lemma DeleteRecords(s: DB)
    requires RecordsOk(s.logs, s.records, s.cur.log, s.topSeq)
    ensures var s' := DeleteObsolete(s); RecordsOk(s'.logs, s'.records, s'.cur.log, s'.topSeq)
  {
    hide Ascending, EndOf, LogEntries;
  }

  lemma DeleteLogs(s: DB)
    requires Inv(s) && s.disk == s.cur && !s.bgError
    ensures LogsOk(DeleteObsolete(s))
  {
    hide MemFits, RecordsOk, TablesOk, FilesOk, FlushOk, JobOk, BackgroundOk, PinsOk, HistoryOk;
    var s' := DeleteObsolete(s);
    assert LogsFrom(s'.logs, s.cur.log) == LogsFrom(s.logs, s.cur.log) by {
      forall e | e in LogsFrom(s.logs, s.cur.log) ensures e in LogsFrom(s'.logs, s.cur.log) {
        var n :| n in s.logs && s.cur.log <= n && e in s.logs[n];
        assert n in s'.logs && e in s'.logs[n];
      }
    }
    forall e | e in s.history && s.cur.flushed < e.seqno <= s.immSeq
      ensures InOlderLog(s'.logs, s.cur.log, s.memLog, e)
    {
      assert InOlderLog(s.logs, s.cur.log, s.memLog, e);
      var n :| n in s.logs && s.cur.log <= n < s.memLog && e in s.logs[n];
      assert n in s'.logs && e in s'.logs[n];
    }
  }

  // ------------------------------------------------------------- flushing

  lemma FlushTables(m: Manifest, h: set<Entry>, t: Table, level: nat, upTo: nat, m': Manifest)
    requires TablesOk(m, h) && m.flushed <= upTo
    requires forall e :: e in t.entries <==> e in h && m.flushed < e.seqno <= upTo
    requires FlushFits(m.version, level, t.entries)
    requires m'.version == (if t.entries == {} then m.version else AddTable(m.version, level, t))
    requires m'.flushed == upTo && m'.floor == m.floor
    ensures Contents(m'.version) == t.entries + Contents(m.version) && UpTo(h, upTo) == t.entries + UpTo(h, m.flushed)
    ensures TablesOk(m', h)
  {
    AddTableTables(m.version, level, t);
    AddTableOrdered(m.version, level, t);
    AddedSettled(m, t.entries, UpTo(h, m.flushed), m');
    hide LacksSettled, Ordered, AddTable, FlushFits;
  }

  /** Entries written into tables settle none of the others. */
  lemma AddedSettled(m: Manifest, added: set<Entry>, writes: set<Entry>, m': Manifest)
    requires LacksSettled(m, writes) && Contents(m'.version) == added + Contents(m.version) && m'.floor == m.floor
    ensures LacksSettled(m', added + writes)
  {
    hide Contents;
  }

  /** A memtable written out as a table stands for the writes it held. */
  lemma FlushStandsFor(m: Manifest, h: set<Entry>, t: Table, level: nat, upTo: nat, m': Manifest)
    requires UniqueSeq(h) && TablesOk(m, h) && TablesStandFor(m, h) && m.flushed <= upTo
    requires forall e :: e in t.entries <==> e in h && m.flushed < e.seqno <= upTo
    requires FlushFits(m.version, level, t.entries)
    requires m'.version == (if t.entries == {} then m.version else AddTable(m.version, level, t))
    requires m'.flushed == upTo && m'.floor == m.floor
    ensures TablesStandFor(m', h)
  {
    FlushTables(m, h, t, level, upTo, m');
    forall k: Key, q: nat | m'.floor <= q
      ensures Read(Contents(m'.version), k, q) == Read(UpTo(h, upTo), k, q)
    {
      ReadOver(t.entries, Contents(m.version), k, q);
      ReadOver(t.entries, UpTo(h, m.flushed), k, q);
      assert Read(Contents(m.version), k, q) == Read(UpTo(h, m.flushed), k, q);
    }
  }

  lemma FlushStartInv(s: DB)
    requires Inv(s) && Enabled(s, FlushStart)
    ensures Inv(Apply(s, FlushStart))
  {
    hide MemFits, LogUnique, MemLog, ImmLog, DiskPoint, RecordsOk, TablesOk, AllResolve, PinsResolve;
    hide OutputsResolve, Apart, JobFits, JobRecorded, FlushRecorded, ViewOk, FlushFits, IsSmallest;
    FileAddedOk(s, s.imm.value);
  }

  lemma FlushFinishInv(s: DB)
    requires Inv(s) && Enabled(s, FlushFinish)
    ensures Inv(Apply(s, FlushFinish))
  {
    hide MemFits, LogNumbers, LogUnique, MemLog, ImmLog, DiskPoint, RecordsOk, TablesOk, AllResolve;
    hide PinsResolve, JobFits, JobRecorded, FlushRecorded, ViewOk, Resolves, FlushFits, IsSmallest;
  }

  lemma FlushRecordTables(s: DB, level: nat)
    requires Inv(s) && Enabled(s, FlushRecord(level))
    ensures var m := FlushedManifest(s, s.flush.table, level);
            TablesOk(m, s.history) && AllResolve(s.files, m.version, s.nextFile)
  {
    hide JobOk, BackgroundOk, HistoryOk, PinsOk, PinsResolve, OutputsResolve, Apart, MemLog, ImmLog, RecordsOk;
    var t := s.flush.table;
    FlushTables(s.cur, s.history, t, level, s.immSeq, FlushedManifest(s, t, level));
    AddTableTables(s.cur.version, level, t);
  }

  lemma FlushRecordInv(s: DB, level: nat)
    requires Inv(s) && Enabled(s, FlushRecord(level))
    ensures Inv(Apply(s, FlushRecord(level)))
  {
    hide LogUnique, MemLog, ImmLog, RecordsOk, TablesOk, AllResolve, PinsResolve, OutputsResolve, Apart, JobFits;
    hide JobRecorded, ViewOk, IsSmallest, FlushFits, MemFits, Resolves;
    FlushRecordTables(s, level);
  }

  lemma FlushRecordReads(s: DB, level: nat)
    requires Inv(s) && ReadsOk(s) && Enabled(s, FlushRecord(level))
    ensures TablesStandFor(FlushedManifest(s, s.flush.table, level), s.history)
  {
    hide JobOk, BackgroundOk, HistoryOk, PinsOk, FilesOk, MemLog, ImmLog, RecordsOk, TablesStandFor;
    var t := s.flush.table;
    HistoryUnique(s);
    FlushStandsFor(s.cur, s.history, t, level, s.immSeq, FlushedManifest(s, t, level));
  }

  /** The flushed table is none of a compaction's inputs. */
  lemma FlushedIsNew(m: Manifest, h: set<Entry>, t: Table, level: nat, inputs: set<Table>)
    requires TablesOk(m, h) && level < DEEP_LEVELS && FromTwoLevels(m.version, level, inputs)
    requires t.entries != {} && forall e :: e in t.entries ==> m.flushed < e.seqno
    ensures t !in inputs
  {
    var e :| e in t.entries;
    InTables(m.version, t);
    assert t in inputs ==> HasTable(m.version, t);
    assert t in Tables(m.version) ==> e in Contents(m.version);
  }

  lemma FlushKeepsJob(s: DB)
    requires Inv(s) && s.flush.Recorded? && s.job.Some?
    ensures JobFits(s.job.value, s.disk)
  {
    var j, t := s.job.value, s.flush.table;
    if t.entries != {} {
      FlushedIsNew(s.cur, s.history, t, j.level, j.inputs);
      AddTableFits(s.cur.version, s.flush.level, t, j.level, j.inputs, j.base);
    }
  }

  lemma InstallLogs(s: DB)
    requires LogsOk(s) && s.cur.log <= s.disk.log && s.disk.log == s.memLog && s.disk.flushed == s.immSeq
    ensures LogsOk(s.(cur := s.disk, imm := None, flush := NoFlush))
  {
    assert LogsFrom(s.logs, s.disk.log) <= LogsFrom(s.logs, s.cur.log);
  }

  lemma LaterRecords(s: DB, from: nat)
    requires RecordsOk(s.logs, s.records, s.cur.log, s.topSeq) && s.cur.log <= from
    ensures RecordsOk(s.logs, s.records, from, s.topSeq)
  {
    hide Ascending, LogEntries, EndOf;
  }

  lemma InstalledFiles(s: DB)
    requires Inv(s) && Enabled(s, FlushInstall)
    ensures FilesOk(Installed(s)) && FlushOk(Installed(s)) && JobOk(Installed(s))
  {
    hide MemFits, LogsOk, RecordsOk, TablesOk, HistoryOk, PinsOk, PinsResolve, OutputsResolve, Apart, JobFits, JobRecorded, Resolves;
    if s.job.Some? { FlushKeepsJob(s); }
    hide AddTable, FlushFits;
  }

  lemma InstalledRest(s: DB)
    requires Inv(s) && Enabled(s, FlushInstall)
    ensures var s1 := Installed(s);
            && NumbersOk(s1) && BackgroundOk(s1) && HistoryOk(s1)
            && MemFits(s1.history, s1.mem, ImmSet(s1), s1.cur.flushed, s1.immSeq)
            && LogsOk(s1) && RecordsOk(s1.logs, s1.records, s1.cur.log, s1.topSeq)
  {
    hide TablesOk, FilesOk, JobOk, PinsOk, RecordsOk, LogUnique, MemLog, ImmLog, DiskPoint, AddTable, FlushFits;
    InstallLogs(s);
    LaterRecords(s, s.disk.log);
    hide LogsOk;
  }

  lemma InstalledInv(s: DB)
    requires Inv(s) && Enabled(s, FlushInstall)
    ensures Inv(Installed(s)) && Installed(s).disk == Installed(s).cur && Installed(s).flush == NoFlush
  {
    InstalledFiles(s);
    InstalledRest(s);
    hide NumbersOk, MemFits, LogsOk, RecordsOk, TablesOk, FilesOk, FlushOk, JobOk, BackgroundOk, HistoryOk, ViewOk;
  }

  lemma FlushInstallInv(s: DB)
    requires Inv(s) && Enabled(s, FlushInstall)
    ensures Inv(Apply(s, FlushInstall))
  {
    hide *;
    InstalledInv(s);
    DeleteInv(Installed(s));
    AppliedInstall(s);
  }

  lemma FlushFailInv(s: DB)
    requires Inv(s) && Enabled(s, FlushFail)
    ensures Inv(Apply(s, FlushFail))
  {
    hide MemFits, LogNumbers, LogUnique, MemLog, ImmLog, DiskPoint, RecordsOk, TablesOk, AllResolve;
    hide PinsResolve, JobFits, JobRecorded, FlushRecorded, ViewOk, Resolves, FlushFits, IsSmallest;
  }

  // ----------------------------------------------------------- compacting

  lemma CompactStartInv(s: DB, level: nat, inputs: set<Table>, base: set<Key>, smallest: nat)
    requires Inv(s) && Enabled(s, CompactStart(level, inputs, base, smallest))
    ensures Inv(Apply(s, CompactStart(level, inputs, base, smallest)))
  {
    hide MemFits, LogNumbers, LogUnique, MemLog, ImmLog, DiskPoint, RecordsOk;
    hide AllResolve, PinsResolve, JobRecorded, FlushRecorded, ViewOk, Resolves, FlushFits;
    PickedFits(s.cur.version, level, inputs, base);
    forall t | t in inputs ensures t in Tables(s.cur.version) {
      InTables(s.cur.version, t);
      assert HasTable(s.cur.version, t);
    }
    if s.snapshots != map[] {
      var id :| id in s.snapshots && s.snapshots[id] == smallest;
    }
  }

  lemma CompactOutputInv(s: DB, entries: set<Entry>)
    requires Inv(s) && Enabled(s, CompactOutput(entries))
    ensures Inv(Apply(s, CompactOutput(entries)))
  {
    hide MemFits, LogUnique, MemLog, ImmLog, DiskPoint, RecordsOk, TablesOk;
    hide AllResolve, PinsResolve, Apart, FlushRecorded, ViewOk, FlushFits, IsSmallest;
    FileAddedOk(s, entries);
  }

  /** The edit of a finished compaction keeps the tables in order and adds no entry. */
  lemma CompactTables(m: Manifest, h: set<Entry>, j: Job, m': Manifest)
    requires TablesOk(m, h) && JobFits(j, m) && JobRecorded(j, m, m')
    requires DropsLike(EntriesOf(j.inputs), EntriesOf(set t | t in j.outputs), j.smallest, j.base)
    ensures TablesOk(m', h)
  {
    var v, v' := m.version, m'.version;
    ReplaceOrdered(v, j.level, j.inputs, j.base, j.outputs);
    ReplacedContents(v, j.level, j.inputs, j.outputs);
    var rest, merged, made := EntriesOf(Tables(v) - j.inputs), EntriesOf(j.inputs), EntriesOf(set t | t in j.outputs);
    hide Ordered, EntriesOf, Tables, Replace, CompactionFits, UpTo;
    DroppedSettled(m, UpTo(h, m.flushed), rest, merged, made, j.smallest, j.base, m');
  }

  /** What a compaction drops is settled for every reader from its smallest snapshot on. */
  lemma DroppedSettled(m: Manifest, writes: set<Entry>, rest: set<Entry>, merged: set<Entry>, made: set<Entry>,
                       smallest: nat, base: set<Key>, m': Manifest)
    requires LacksSettled(m, writes) && Contents(m.version) == rest + merged <= writes && Contents(m'.version) == rest + made
    requires DropsLike(merged, made, smallest, base) && m.floor <= smallest && m'.floor == smallest
    ensures LacksSettled(m', writes)
  {
    hide Contents;
    forall e | e in writes && e !in Contents(m'.version) ensures Settled(writes, e, smallest) {
      if e in merged {
        assert Hidden(merged, e, smallest) || ObsoleteTombstone(e, smallest, base);
      } else {
        assert Settled(writes, e, m.floor);
      }
    }
  }

  /**
   The compacted tables stand for the same writes, from the job's smallest
   snapshot on, exactly when no value is uncovered.
   */
  lemma CompactStandsFor(m: Manifest, h: set<Entry>, j: Job, m': Manifest)
    requires UniqueSeq(h) && TablesOk(m, h) && TablesStandFor(m, h) && JobFits(j, m) && JobRecorded(j, m, m')
    requires EntriesOf(set t | t in j.outputs) == Kept(EntriesOf(j.inputs), j.smallest, j.base)
    ensures TablesStandFor(m', h) <==> Covers(m.version, j.level, j.inputs, j.base, j.smallest)
  {
    assert UniqueSeq(Contents(m.version));
    ReplaceReadsIff(m.version, j.level, j.inputs, j.base, j.outputs, j.smallest);
    hide Covers, Contents, UpTo, Replace, Read, Kept, EntriesOf, Ordered;
    var a, b, w := Contents(m.version), Contents(m'.version), UpTo(h, m.flushed);
    assert forall k: Key, t: nat :: j.smallest <= t ==> Read(a, k, t) == Read(w, k, t);
  }

  /** Moving a table down a level changes no read. */
  lemma MoveStandsFor(m: Manifest, h: set<Entry>, j: Job, m': Manifest)
    requires TablesOk(m, h) && TablesStandFor(m, h) && JobFits(j, m) && JobRecorded(j, m, m') && j.smallest == m.floor
    requires EntriesOf(set t | t in j.outputs) == EntriesOf(j.inputs)
    ensures TablesStandFor(m', h)
  {
    ReplacedContents(m.version, j.level, j.inputs, j.outputs);
  }

  lemma EditResolves(s: DB, j: Job, m: Manifest)
    requires AllResolve(s.files, s.cur.version, s.nextFile) && |s.cur.version.deep| == DEEP_LEVELS && j.level < DEEP_LEVELS
    requires forall t :: t in j.outputs ==> Resolves(s.files, t, s.nextFile)
    requires m.version == Replace(s.cur.version, j.level, j.inputs, j.outputs)
    ensures AllResolve(s.files, m.version, s.nextFile)
  {
    ReplaceTables(s.cur.version, j.level, j.inputs, j.outputs);
  }

  lemma CompactRecordInv(s: DB)
    requires Inv(s) && Enabled(s, CompactRecord)
    ensures Inv(Apply(s, CompactRecord))
  {
    hide MemFits, LogUnique, MemLog, ImmLog, PinsResolve, Apart, FlushRecorded, ViewOk, FlushFits, IsSmallest;
    hide RecordsOk, Replace, CompactionFits, Ordered, Contents;
    var j := s.job.value;
    var j' := j.(recorded := true);
    var m := CompactedManifest(s, j);
    assert JobRecorded(j', s.cur, m);
    assert DropsLike(EntriesOf(j.inputs), EntriesOf(set t | t in j.outputs), j.smallest, j.base);
    assert |s.cur.version.deep| == DEEP_LEVELS && j.level < DEEP_LEVELS by { JobLevels(s); }
    CompactTables(s.cur, s.history, j', m);
    EditResolves(s, j, m);
    hide TablesOk, AllResolve, OutputsResolve, Kept, JobFits, LogsOk;
  }

  lemma JobLevels(s: DB)
    requires TablesOk(s.cur, s.history) && s.job.Some? && JobFits(s.job.value, s.cur)
    ensures |s.cur.version.deep| == DEEP_LEVELS && s.job.value.level < DEEP_LEVELS
  {
  }

  lemma CompactRecordReads(s: DB)
    requires Inv(s) && ReadsOk(s) && Enabled(s, CompactRecord)
    ensures ReadsOk(Apply(s, CompactRecord)) <==> JobCovers(s)
  {
    assert s.job.Some? && TablesStandFor(s.cur, s.history);
    hide *;
    RecordedJob(s);
    CompactStandsFor(s.cur, s.history, s.job.value.(recorded := true), CompactedManifest(s, s.job.value));
    RecordedReads(s);
  }

  /** The tables' answer for `k` at `t` is a tombstone that the running compaction drops over a left-behind value. */
  ghost predicate JobUncovers(s: DB, k: Key, t: nat)
    requires s.job.Some?
  {
    var j, v := s.job.value, s.cur.version;
    UncoversAt(Contents(v), EntriesOf(LeftNext(v, j.level, j.inputs)), EntriesOf(j.inputs), j.smallest, j.base, k, t)
  }

  /**
   And reader by reader: what Get returns for one key at one sequence, a live
   snapshot's say, changes with the installed compaction exactly when no
   memtable decides and the tables' answer was a deletion that uncovers a value.
   */
  lemma CompactedReadAt(s: DB, k: Key, t: nat)
    requires Inv(s) && Enabled(s, CompactRecord) && s.job.value.smallest <= t
    ensures GetAt(Finished(Apply(s, CompactRecord)), k, t) != GetAt(s, k, t)
            <==> !Visible(s.mem, k, t) && !Visible(ImmSet(s), k, t) && JobUncovers(s, k, t)
  {
    var j, v, m := s.job.value, s.cur.version, CompactedManifest(s, s.job.value);
    RecordedTables(s);
    FinishedView(s);
    assert Now(s).(version := m.version) == View(s.lastSeq, s.mem, ImmSet(s), m.version);
    hide *;
    ReplaceReadAt(v, j.level, j.inputs, j.base, j.outputs, j.smallest, k, t);
    GetStack(s.mem, ImmSet(s), v, s.lastSeq, k, t);
    GetStack(s.mem, ImmSet(s), m.version, s.lastSeq, k, t);
    StackReads(s, m.version, k, t);
  }

  lemma StackReads(s: DB, v': Version, k: Key, t: nat)
    requires Enabled(s, CompactRecord) && Now(Finished(Apply(s, CompactRecord))) == Now(s).(version := v')
    requires Get(ViewLayers(Now(s)), k, t) == Stacked(s.mem, ImmSet(s), Contents(s.cur.version), k, t)
    requires Get(ViewLayers(Now(s).(version := v')), k, t) == Stacked(s.mem, ImmSet(s), Contents(v'), k, t)
    ensures GetAt(Finished(Apply(s, CompactRecord)), k, t) != GetAt(s, k, t)
            <==> !Visible(s.mem, k, t) && !Visible(ImmSet(s), k, t) && Read(Contents(v'), k, t) != Read(Contents(s.cur.version), k, t)
  {
    hide Get, ViewLayers, Visible, Latest, Contents, Apply, Finished, Enabled, ImmSet, Now;
  }

  lemma RecordedTables(s: DB)
    requires Inv(s) && Enabled(s, CompactRecord)
    ensures var j, v, m := s.job.value, s.cur.version, CompactedManifest(s, s.job.value);
            && Ordered(v) && Ordered(m.version) && UniqueSeq(Contents(v)) && UniqueSeq(Contents(m.version))
            && CompactionFits(v, j.level, j.inputs, j.base)
            && EntriesOf(set t | t in j.outputs) == Kept(EntriesOf(j.inputs), j.smallest, j.base)
  {
    var j, m := s.job.value, CompactedManifest(s, s.job.value);
    RecordedJob(s);
    RecordedOk(s);
    hide Inv, Enabled, CompactedManifest, Ordered, Contents, CompactionFits, Kept, EntriesOf;
  }

  lemma FinishedView(s: DB)
    requires Enabled(s, CompactRecord)
    ensures Now(Finished(Apply(s, CompactRecord))) == Now(s).(version := CompactedManifest(s, s.job.value).version)
    ensures Now(s) == View(s.lastSeq, s.mem, ImmSet(s), s.cur.version)
    ensures CompactedManifest(s, s.job.value).version == Replace(s.cur.version, s.job.value.level, s.job.value.inputs, s.job.value.outputs)
  {
    hide Replace;
  }

  lemma RecordedOk(s: DB)
    requires Inv(s) && Enabled(s, CompactRecord)
    ensures TablesOk(CompactedManifest(s, s.job.value), s.history)
  {
    hide *;
    CompactRecordInv(s);
    AppliedRecord(s);
    InvTables(Apply(s, CompactRecord));
  }

  lemma AppliedRecord(s: DB)
    requires Enabled(s, CompactRecord)
    ensures s.job.Some?
    ensures Apply(s, CompactRecord) == s.(job := Some(s.job.value.(recorded := true)), disk := CompactedManifest(s, s.job.value))
  {
    hide CompactedManifest;
  }

  lemma InvTables(s: DB)
    requires Inv(s)
    ensures TablesOk(s.cur, s.history) && TablesOk(s.disk, s.history)
  {
    hide LogsOk, RecordsOk, MemFits, FilesOk, PinsOk, BackgroundOk, HistoryOk, NumbersOk, TablesOk, FlushOk, JobOk;
  }

  lemma RecordedReads(s: DB)
    requires ReadsOk(s) && Enabled(s, CompactRecord)
    ensures var j := s.job.value;
            && (ReadsOk(Apply(s, CompactRecord)) <==> TablesStandFor(CompactedManifest(s, j), s.history))
            && (JobCovers(s) <==> Covers(s.cur.version, j.level, j.inputs, j.base, j.smallest))
            && j.(recorded := true).smallest == j.smallest && j.(recorded := true).outputs == j.outputs
            && j.(recorded := true).level == j.level && j.(recorded := true).inputs == j.inputs && j.(recorded := true).base == j.base
  {
    hide TablesStandFor, ViewSees, Covers, Kept, EntriesOf, CompactedManifest;
  }

  lemma RecordedJob(s: DB)
    requires Inv(s) && Enabled(s, CompactRecord)
    ensures var j := s.job.value;
            && UniqueSeq(s.history) && TablesOk(s.cur, s.history)
            && JobFits(j, s.cur) && JobFits(j.(recorded := true), s.cur)
            && JobRecorded(j.(recorded := true), s.cur, CompactedManifest(s, j))
            && EntriesOf(set t | t in j.outputs) == Kept(EntriesOf(j.inputs), j.smallest, j.base)
  {
    HistoryUnique(s);
    hide LogsOk, RecordsOk, MemFits, FilesOk, PinsOk, BackgroundOk, HistoryOk, NumbersOk, TablesOk, CompactionFits;
  }

  lemma MovedJob(s: DB, level: nat, table: Table)
    requires Inv(s) && Enabled(s, MoveRecord(level, table))
    ensures var s' := Apply(s, MoveRecord(level, table));
            && JobFits(s'.job.value, s.cur) && JobRecorded(s'.job.value, s.cur, s'.disk)
            && table in Tables(s.cur.version) && |s.cur.version.deep| == DEEP_LEVELS && level < DEEP_LEVELS
            && EntriesOf(set t | t in s'.job.value.outputs) == EntriesOf({table})
  {
    PickedFits(s.cur.version, level, {table}, {});
    InTables(s.cur.version, table);
    assert HasTable(s.cur.version, table);
    assert (set t | t in [table]) == {table};
  }

  lemma MovedTables(s: DB, level: nat, table: Table)
    requires Inv(s) && Enabled(s, MoveRecord(level, table))
    ensures var s' := Apply(s, MoveRecord(level, table));
            TablesOk(s'.disk, s.history) && AllResolve(s.files, s'.disk.version, s.nextFile) && Resolves(s.files, table, s.nextFile)
  {
    var s' := Apply(s, MoveRecord(level, table));
    MovedJob(s, level, table);
    hide MemFits, LogsOk, RecordsOk, FlushOk, PinsOk, HistoryOk, NumbersOk, BackgroundOk, JobOk, TablesOk, JobFits, JobRecorded;
    hide PinsResolve, OutputsResolve, Apart, CompactionPicked, Resolves;
    CompactTables(s.cur, s.history, s'.job.value, s'.disk);
    assert Resolves(s.files, table, s.nextFile);
    EditResolves(s, s'.job.value, s'.disk);
  }

  lemma MoveRecordInv(s: DB, level: nat, table: Table)
    requires Inv(s) && Enabled(s, MoveRecord(level, table))
    ensures Inv(Apply(s, MoveRecord(level, table)))
  {
    hide MemFits, LogUnique, MemLog, ImmLog, PinsResolve, Apart, FlushRecorded, ViewOk, FlushFits, IsSmallest, DiskPoint;
    hide RecordsOk, Replace, CompactionPicked, CompactionFits, TablesOk, AllResolve, JobFits, JobRecorded, EntriesOf, Tables, Resolves;
    MovedJob(s, level, table);
    MovedTables(s, level, table);
    assert DiskPoint(s.cur, Apply(s, MoveRecord(level, table)).disk, s.memLog, s.immSeq) by { MovedPoint(s, level, table); }
  }

  lemma MovedPoint(s: DB, level: nat, table: Table)
    requires Enabled(s, MoveRecord(level, table))
    ensures DiskPoint(s.cur, Apply(s, MoveRecord(level, table)).disk, s.memLog, s.immSeq)
  {
  }

  lemma MoveRecordReads(s: DB, level: nat, table: Table)
    requires Inv(s) && ReadsOk(s) && Enabled(s, MoveRecord(level, table))
    ensures ReadsOk(Apply(s, MoveRecord(level, table)))
  {
    var s' := Apply(s, MoveRecord(level, table));
    MovedJob(s, level, table);
    hide LogsOk, RecordsOk, MemFits, FilesOk, PinsOk, BackgroundOk, HistoryOk, NumbersOk, PinsSee, TablesStandFor, TablesOk, JobFits, JobRecorded;
    MoveStandsFor(s.cur, s.history, s'.job.value, s'.disk);
  }

  lemma FinishedInv(s: DB)
    requires s.job.Some? && Inv(s) && (Enabled(s, CompactInstall) || Enabled(s, MoveInstall))
    ensures Inv(Finished(s)) && Finished(s).disk == Finished(s).cur && Finished(s).flush == NoFlush
  {
    hide MemFits, LogUnique, MemLog, ImmLog, TablesOk, PinsResolve, RecordsOk;
    hide OutputsResolve, Apart, JobFits, FlushRecorded, ViewOk, FlushFits, IsSmallest;
    assert AllResolve(Finished(s).files, Finished(s).cur.version, Finished(s).nextFile);
    LaterRecords(s, s.disk.log);
  }

  lemma CompactInstallInv(s: DB)
    requires Inv(s) && Enabled(s, CompactInstall)
    ensures Inv(Apply(s, CompactInstall))
  {
    assert s.job.Some?;
    hide *;
    FinishedInv(s);
    DeleteInv(Finished(s));
    AppliedFinish(s);
  }

  /** After a trivial move no file is deleted. */
  lemma MoveInstallInv(s: DB)
    requires Inv(s) && Enabled(s, MoveInstall)
    ensures Inv(Apply(s, MoveInstall))
  {
    assert s.job.Some?;
    hide *;
    FinishedInv(s);
    AppliedMove(s);
  }

  lemma AppliedMove(s: DB)
    requires Enabled(s, MoveInstall)
    ensures s.job.Some? && Apply(s, MoveInstall) == Finished(s)
  {
    hide Finished;
  }

  lemma CompactFailInv(s: DB)
    requires Inv(s) && Enabled(s, CompactFail)
    ensures Inv(Apply(s, CompactFail))
  {
    hide MemFits, LogNumbers, LogUnique, MemLog, ImmLog, DiskPoint, RecordsOk, TablesOk, AllResolve;
    hide PinsResolve, Apart, JobFits, JobRecorded, FlushRecorded, ViewOk, Resolves, FlushFits, IsSmallest;
  }

  // ---------------------------------------------------- crash and recovery

  lemma RecoveredAbove(s: DB, lost: set<Entry>, e: Entry)
    requires Inv(s) && e in Recovered(s, lost)
    ensures s.disk.flushed < e.seqno && e in LogsFrom(s.logs, s.cur.log)
  {
    hide MemFits, RecordsOk, TablesOk, FilesOk, FlushOk, JobOk, BackgroundOk, PinsOk, HistoryOk;
    var n :| n in s.logs && s.disk.log <= n && e in s.logs[n];
  }

  /** What no table of the descriptor on disk has, a log it will replay has. */
  lemma UnflushedIsLogged(s: DB, e: Entry)
    requires Inv(s) && e in s.history && s.disk.flushed < e.seqno
    ensures e in LogsFrom(s.logs, s.disk.log)
  {
    hide MemFits, RecordsOk, TablesOk, FilesOk, FlushOk, JobOk, BackgroundOk, PinsOk, HistoryOk;
    if e.seqno <= s.immSeq {
      assert InOlderLog(s.logs, s.cur.log, s.memLog, e);
    }
  }

  lemma {:induction false} WithTablesResolve(files: map<nat, set<Entry>>, tables: seq<Table>, v: Version, below: nat, next: nat)
    requires AllResolve(files, v, below) && below <= next
    requires forall t :: t in tables ==> below <= t.number < next
    requires forall t, u :: t in tables && u in tables && t.number == u.number ==> t == u
    ensures AllResolve(WithTables(files, tables), v, below)
    ensures forall t :: t in tables ==> Resolves(WithTables(files, tables), t, next)
  {
    if tables != [] {
      var tail := tables[1..];
      WithTablesResolve(files, tail, v, below, next);
      forall t | t in tables ensures Resolves(WithTables(files, tables), t, next) {
        if t != tables[0] {
          assert tables == [tables[0]] + tail;
          assert t in tail;
        }
      }
    }
  }

  lemma ReplayTables(m: Manifest, h: set<Entry>, x: set<Entry>, tables: seq<Table>, m': Manifest)
    requires TablesOk(m, h)
    requires forall e :: e in x ==> m.flushed < e.seqno <= m'.flushed
    requires EntriesOf(set t | t in tables) == x && NewestFirst(tables)
    requires m'.version == Version(tables + m.version.l0, m.version.deep)
    requires m.flushed <= m'.flushed && m'.floor == m.floor
    ensures UpTo(UpTo(h, m.flushed) + x, m'.flushed) == x + UpTo(h, m.flushed) && Contents(m'.version) == x + Contents(m.version)
    ensures TablesOk(m', UpTo(h, m.flushed) + x)
  {
    forall t, e | t in tables && e in t.entries ensures e in x { assert t in (set o | o in tables); }
    PushTables(m.version, tables);
    PushedTables(m.version, tables);
    AddedSettled(m, x, UpTo(h, m.flushed), m');
    hide LacksSettled, Ordered, NewestFirst;
  }

  /** Tables replayed from the logs, on top of the old ones, stand for both. */
  lemma ReplayStandsFor(m: Manifest, h: set<Entry>, x: set<Entry>, tables: seq<Table>, m': Manifest)
    requires TablesOk(m, h) && TablesStandFor(m, h) && UniqueSeq(UpTo(h, m.flushed) + x)
    requires forall e :: e in x ==> m.flushed < e.seqno <= m'.flushed
    requires EntriesOf(set t | t in tables) == x && NewestFirst(tables)
    requires m'.version == Version(tables + m.version.l0, m.version.deep)
    requires m.flushed <= m'.flushed && m'.floor == m.floor
    ensures TablesStandFor(m', UpTo(h, m.flushed) + x)
  {
    var v, base := m.version, UpTo(h, m.flushed);
    ReplayTables(m, h, x, tables, m');
    assert UniqueSeq(x + base) && UniqueSeq(x + Contents(v));
    forall k: Key, q: nat | m'.floor <= q
      ensures Read(Contents(m'.version), k, q) == Read(UpTo(base + x, m'.flushed), k, q)
    {
      ReadOver(x, Contents(v), k, q);
      ReadOver(x, base, k, q);
      assert Read(Contents(v), k, q) == Read(base, k, q);
    }
  }

  lemma CrashTables(s: DB, r: Restart)
    requires Inv(s) && Enabled(s, Crash(r))
    ensures TablesOk(OpenedManifest(s, r), UpTo(s.history, s.disk.flushed) + Recovered(s, r.lost))
  {
    hide MemFits, LogsOk, RecordsOk, FilesOk, FlushOk, JobOk, BackgroundOk, PinsOk, HistoryOk, Remains, LogEntries, EndOf, Ordered;
    var x := Recovered(s, r.lost);
    forall e | e in x ensures s.disk.flushed < e.seqno { RecoveredAbove(s, r.lost, e); }
    if r.save {
      ReplayTables(s.disk, s.history, x, r.tables, OpenedManifest(s, r));
    } else {
      assert UpTo(UpTo(s.history, s.disk.flushed) + x, s.disk.flushed) == UpTo(s.history, s.disk.flushed);
    }
  }

  lemma CrashReads(s: DB, r: Restart)
    requires Inv(s) && ReadsOk(s) && Enabled(s, Crash(r))
    ensures TablesStandFor(OpenedManifest(s, r), UpTo(s.history, s.disk.flushed) + Recovered(s, r.lost))
  {
    hide MemFits, LogsOk, RecordsOk, TablesOk, FilesOk, FlushOk, JobOk, BackgroundOk, PinsOk, HistoryOk, Remains, LogEntries, EndOf, Ordered;
    var x := Recovered(s, r.lost);
    forall e | e in x ensures s.disk.flushed < e.seqno { RecoveredAbove(s, r.lost, e); }
    if r.save {
      CrashUnique(s, r.lost);
      ReplayStandsFor(s.disk, s.history, x, r.tables, OpenedManifest(s, r));
    } else {
      assert UpTo(UpTo(s.history, s.disk.flushed) + x, s.disk.flushed) == UpTo(s.history, s.disk.flushed);
    }
  }

  lemma CrashUnique(s: DB, lost: set<Entry>)
    requires Inv(s)
    ensures UniqueSeq(UpTo(s.history, s.disk.flushed) + Recovered(s, lost))
  {
    hide MemFits, RecordsOk, TablesOk, FilesOk, FlushOk, JobOk, BackgroundOk, PinsOk, HistoryOk;
    forall e | e in Recovered(s, lost) ensures e in LogsFrom(s.logs, s.cur.log) { RecoveredAbove(s, lost, e); }
  }

  lemma CrashLogs(s: DB, r: Restart)
    requires Inv(s) && Enabled(s, Crash(r))
    ensures LogsOk(Reopened(s, r))
  {
    hide *;
    NothingLogged(s, r);
    CrashHeld(s, r);
    CrashedUnique(s, r);
    CrashLogNumbers(s, r);
    EmptyLogsOk(Reopened(s, r));
  }

  lemma EmptyLogsOk(s: DB)
    requires LogNumbers(s.logs, s.cur.log, s.disk.log, s.memLog, s.nextFile) && LogUnique(s.history, s.logs, s.cur.log)
    requires s.cur == s.disk && s.cur.flushed <= s.immSeq
    requires forall n :: n in s.logs && s.cur.log <= n ==> s.logs[n] == {}
    requires forall e :: e in s.history ==> e.seqno <= s.cur.flushed
    ensures LogsOk(s)
  {
    hide LogUnique;
  }

  lemma CrashedUnique(s: DB, r: Restart)
    requires Inv(s) && LogsFrom(Reopened(s, r).logs, Reopened(s, r).cur.log) == {}
    ensures LogUnique(Reopened(s, r).history, Reopened(s, r).logs, Reopened(s, r).cur.log)
  {
    hide Inv, Recovered, UpTo, UniqueSeq, OpenedManifest;
    var h := UpTo(s.history, s.disk.flushed) + Recovered(s, r.lost);
    CrashUnique(s, r.lost);
    assert h + {} == h;
  }

  lemma CrashLogNumbers(s: DB, r: Restart)
    requires Inv(s) && Enabled(s, Crash(r))
    ensures var s' := Reopened(s, r);
            && LogNumbers(s'.logs, s'.cur.log, s'.disk.log, s'.memLog, s'.nextFile)
            && s'.cur == s'.disk && s'.cur.flushed <= s'.immSeq
  {
    hide MemFits, RecordsOk, TablesOk, FilesOk, FlushOk, JobOk, BackgroundOk, PinsOk, HistoryOk, Remains, LogEntries, EndOf, EntriesOf, NewestFirst;
    hide LogUnique, MemLog, ImmLog;
  }

  lemma NothingLogged(s: DB, r: Restart)
    requires Inv(s) && Enabled(s, Crash(r))
    ensures var s' := Reopened(s, r);
            LogsFrom(s'.logs, s'.cur.log) == {} && forall n :: n in s'.logs && s'.cur.log <= n ==> s'.logs[n] == {}
  {
    hide MemFits, RecordsOk, TablesOk, FilesOk, FlushOk, JobOk, BackgroundOk, PinsOk, HistoryOk, Remains, LogEntries, EndOf, EntriesOf, NewestFirst;
    hide LogUnique, MemLog, ImmLog;
    var s' := Reopened(s, r);
    forall n | n in s'.logs && s'.cur.log <= n ensures s'.logs[n] == {} {
      forall e | e in s'.logs[n] ensures e in Recovered(s, r.lost) {}
    }
  }

  /** All that survives a crash is in tables again, or was before. */
  lemma CrashHeld(s: DB, r: Restart)
    requires Inv(s) && Enabled(s, Crash(r))
    ensures forall e :: e in Reopened(s, r).history ==> e.seqno <= Reopened(s, r).cur.flushed
  {
    hide MemFits, LogsOk, RecordsOk, TablesOk, FilesOk, FlushOk, JobOk, BackgroundOk, PinsOk, HistoryOk;
    hide Remains, LogEntries, EndOf, EntriesOf, NewestFirst, Recovered;
  }

  lemma CrashRecords(s: DB, r: Restart)
    requires Inv(s) && Enabled(s, Crash(r))
    ensures var s' := Reopened(s, r); RecordsOk(s'.logs, s'.records, s'.cur.log, s'.topSeq)
  {
    CrashLeft(s, r);
    NewLogRecords(s.logs, r.left, r.lost, r.newLog, s.disk.log, Reopened(s, r).cur.log, r.last);
  }

  /** What remains of the logs is in order and below the new log and its first number. */
  lemma CrashLeft(s: DB, r: Restart)
    requires Inv(s) && Enabled(s, Crash(r))
    ensures r.left.Keys == s.logs.Keys && InOrder(r.left, s.disk.log, 1) && s.disk.log <= Reopened(s, r).cur.log
    ensures forall n :: n in r.left && s.disk.log <= n ==> n < r.newLog && EndOf(r.left[n], 1) <= r.last + 1
    ensures forall n :: n in r.left ==> LogEntries(r.left[n]) == s.logs[n] - r.lost
  {
    hide MemFits, LogUnique, MemLog, ImmLog, TablesOk, FilesOk, JobOk, FlushOk, PinsOk, HistoryOk, BackgroundOk;
    hide Ascending, LogEntries, EndOf, NewestFirst, EntriesOf, Recovered, Remains;
    assert r.left.Keys == s.records.Keys;
    RemainsInOrder(r.left, s.records, s.cur.log, 1);
  }

  lemma ReplayedResolve(files: map<nat, set<Entry>>, tables: seq<Table>, v: Version, below: nat, next: nat)
    requires AllResolve(files, v, below) && below <= next
    requires forall t :: t in tables ==> below <= t.number < next
    requires forall t, u :: t in tables && u in tables && t.number == u.number ==> t == u
    ensures AllResolve(WithTables(files, tables), Version(tables + v.l0, v.deep), next)
  {
    WithTablesResolve(files, tables, v, below, next);
    var v' := Version(tables + v.l0, v.deep);
    forall t | t in Tables(v') ensures t in tables || t in Tables(v) {}
  }

  lemma CrashFiles(s: DB, r: Restart)
    requires Inv(s) && Enabled(s, Crash(r))
    ensures FilesOk(Reopened(s, r))
  {
    if r.save {
      ReplayedResolve(s.files, r.tables, s.disk.version, s.disk.next, r.next);
    }
  }

  lemma CrashHistory(s: DB, r: Restart)
    requires Inv(s) && Enabled(s, Crash(r))
    ensures HistoryOk(Reopened(s, r))
  {
    hide RecordsOk, TablesOk, FilesOk, JobOk, FlushOk, PinsOk, BackgroundOk, Remains, LogEntries, EndOf, NewestFirst, EntriesOf;
    var s' := Reopened(s, r);
    forall e | e in s'.acked ensures e in s'.history {
      if s.disk.flushed < e.seqno { UnflushedIsLogged(s, e); }
    }
    forall e | e in s'.history ensures e in s.attempted {
      if e in Recovered(s, r.lost) {
        var n :| n in s.logs && s.disk.log <= n && e in s.logs[n];
      }
    }
  }

  lemma ReopenedInv(s: DB, r: Restart)
    requires Inv(s) && Enabled(s, Crash(r))
    ensures Inv(Reopened(s, r)) && Reopened(s, r).disk == Reopened(s, r).cur && Reopened(s, r).flush == NoFlush
  {
    hide Ordered, Contents, MemFits, LogUnique, MemLog, ImmLog, LogNumbers, DiskPoint, AllResolve, PinsResolve, EntriesOf;
    hide Remains, LogEntries, EndOf, NewestFirst, InOrder, ViewLayers, Layered, Union, RecordsOk;
    CrashTables(s, r);
    CrashLogs(s, r);
    CrashRecords(s, r);
    CrashHistory(s, r);
    CrashFiles(s, r);
    CrashNumbers(s, r);
    ReopenedIdle(s, r);
    hide LogsOk, HistoryOk, TablesOk, FilesOk, JobOk, FlushOk, BackgroundOk, NumbersOk;
  }

  lemma CrashNumbers(s: DB, r: Restart)
    requires Inv(s) && Enabled(s, Crash(r))
    ensures var s' := Reopened(s, r);
            NumbersOk(s') && MemFits(s'.history, s'.mem, ImmSet(s'), s'.cur.flushed, s'.immSeq)
  {
    hide LogsOk, RecordsOk, TablesOk, FilesOk, FlushOk, JobOk, BackgroundOk, PinsOk, HistoryOk, Recovered;
    hide Remains, LogEntries, EndOf, NewestFirst, EntriesOf;
    RecoveredLate(s, r.lost);
    CrashAcked(s, r);
  }

  lemma CrashAcked(s: DB, r: Restart)
    requires Inv(s) && Enabled(s, Crash(r))
    ensures Reopened(s, r).acked <= Reopened(s, r).history
  {
    CrashHistory(s, r);
    hide Inv, Enabled, Reopened;
  }

  lemma RecoveredLate(s: DB, lost: set<Entry>)
    requires Inv(s)
    ensures forall e :: e in Recovered(s, lost) ==> s.disk.flushed < e.seqno
  {
    hide Inv, Recovered;
    forall e | e in Recovered(s, lost) ensures s.disk.flushed < e.seqno { RecoveredAbove(s, lost, e); }
  }

  /** No background work is under way in a database just opened. */
  lemma ReopenedIdle(s: DB, r: Restart)
    ensures JobOk(Reopened(s, r)) && FlushOk(Reopened(s, r)) && BackgroundOk(Reopened(s, r))
  {
  }

  lemma CrashInv(s: DB, r: Restart)
    requires Inv(s) && Enabled(s, Crash(r))
    ensures Inv(Apply(s, Crash(r)))
  {
    hide *;
    ReopenedInv(s, r);
    DeleteInv(Reopened(s, r));
    AppliedCrash(s, r);
  }

  // ---------------------------------------------------------- whole runs

  lemma StepInv(s: DB, step: Step)
    requires Inv(s) && Enabled(s, step)
    ensures Inv(Apply(s, step))
  {
    hide *;
    match step {
      case WriteStart(ops, fate, sync) => WriteStartInv(s, ops, fate, sync);
      case WriteCommit => WriteCommitInv(s);
      case Switch => SwitchInv(s);
      case Schedule => ScheduleInv(s, step);
      case CallEnd => ScheduleInv(s, step);
      case FlushStart => FlushStartInv(s);
      case FlushFinish => FlushFinishInv(s);
      case FlushRecord(level) => FlushRecordInv(s, level);
      case FlushInstall => FlushInstallInv(s);
      case FlushFail => FlushFailInv(s);
      case CompactStart(level, inputs, base, smallest) => CompactStartInv(s, level, inputs, base, smallest);
      case CompactOutput(entries) => CompactOutputInv(s, entries);
      case CompactRecord => CompactRecordInv(s);
      case CompactInstall => CompactInstallInv(s);
      case MoveInstall => MoveInstallInv(s);
      case CompactFail => CompactFailInv(s);
      case MoveRecord(level, table) => MoveRecordInv(s, level, table);
      case GetSnapshot(id) => GetSnapshotInv(s, id);
      case ReleaseSnapshot(id) => ReleaseSnapshotInv(s, id);
      case Pin(id, snapshot) => PinInv(s, id, snapshot);
      case Unpin(id) => UnpinInv(s, id);
      case Crash(r) => CrashInv(s, r);
    }
  }

  lemma WriteStartReads(s: DB, ops: seq<(Key, Op)>, fate: Fate, sync: bool)
    requires Inv(s) && ReadsOk(s) && Enabled(s, WriteStart(ops, fate, sync))
    ensures ReadsOk(WriteStarted(s, ops, fate, sync))
  {
    hide LogsOk, RecordsOk, MemFits, FilesOk, PinsOk, BackgroundOk, HistoryOk, NumbersOk, PinsSee, TablesOk, JobOk, FlushOk;
    WriteStartGrowth(s, ops, fate, sync);
    PinsUnderGrowth(s.pins, s.history, WriteStarted(s, ops, fate, sync).history, s.lastSeq);
  }

  lemma PinReads(s: DB, id: nat, snapshot: Option<nat>)
    requires Inv(s) && ReadsOk(s) && Enabled(s, Pin(id, snapshot))
    ensures ReadsOk(Apply(s, Pin(id, snapshot)))
  {
    hide MemFits, LogsOk, RecordsOk, TablesOk, FilesOk, JobOk, FlushOk, HistoryOk, BackgroundOk, TablesStandFor;
    var p := Apply(s, Pin(id, snapshot)).pins[id];
    HistoryUnique(s);
    forall k: Key ensures Seen(Get(ViewLayers(p), k, p.seqno)) == Read(s.history, k, p.seqno) {
      ReadsAreHistory(s, k, p.seqno);
      assert ViewLayers(p) == ViewLayers(Now(s));
    }
  }

  /** A step that touches neither tables nor writes nor readers' views. */
  lemma QuietReads(s: DB, step: Step)
    requires ReadsOk(s) && Enabled(s, step)
    requires !step.WriteStart? && !step.FlushRecord? && !step.CompactRecord? && !step.MoveRecord? && !step.Pin? && !step.Crash?
    ensures ReadsOk(Apply(s, step))
  {
    hide TablesStandFor, ViewSees;
  }

  lemma CrashedReads(s: DB, r: Restart)
    requires Inv(s) && ReadsOk(s) && Enabled(s, Crash(r))
    ensures ReadsOk(Apply(s, Crash(r)))
  {
    hide *;
    CrashReads(s, r);
    ReopenedReads(s, r);
    AppliedCrash(s, r);
  }

  lemma ReopenedReads(s: DB, r: Restart)
    requires TablesStandFor(OpenedManifest(s, r), UpTo(s.history, s.disk.flushed) + Recovered(s, r.lost))
    ensures ReadsOk(DeleteObsolete(Reopened(s, r)))
  {
    hide TablesStandFor, Recovered, UpTo, OpenedManifest, WithTables;
  }

  /** Reads stay right under every step, but a compaction must cover. */
  lemma StepReads(s: DB, step: Step)
    requires Inv(s) && ReadsOk(s) && Enabled(s, step)
    requires step.CompactRecord? ==> JobCovers(s)
    ensures ReadsOk(Apply(s, step))
  {
    hide *;
    match step {
      case WriteStart(ops, fate, sync) => WriteStartedReads(s, ops, fate, sync);
      case FlushRecord(level) => FlushedReads(s, level);
      case CompactRecord => CompactRecordReads(s);
      case MoveRecord(level, table) => MoveRecordReads(s, level, table);
      case Pin(id, snapshot) => PinReads(s, id, snapshot);
      case Crash(r) => CrashedReads(s, r);
      case _ => QuietReads(s, step);
    }
  }

  lemma WriteStartedReads(s: DB, ops: seq<(Key, Op)>, fate: Fate, sync: bool)
    requires Inv(s) && ReadsOk(s) && Enabled(s, WriteStart(ops, fate, sync))
    ensures ReadsOk(Apply(s, WriteStart(ops, fate, sync)))
  {
    hide Inv, ReadsOk;
    WriteStartReads(s, ops, fate, sync);
  }

  lemma FlushedReads(s: DB, level: nat)
    requires Inv(s) && ReadsOk(s) && Enabled(s, FlushRecord(level))
    ensures ReadsOk(Apply(s, FlushRecord(level)))
  {
    hide Inv, TablesStandFor, PinsSee;
    FlushRecordReads(s, level);
  }

  // ----------------------------------------------- compactions that cover

  /** A table flushed meanwhile uncovers nothing: all it has is newer. */
  lemma FlushCovers(v: Version, flushLevel: nat, t: Table, j: Job)
    requires |v.deep| == DEEP_LEVELS && FlushFits(v, flushLevel, t.entries) && CompactionFits(v, j.level, j.inputs, j.base)
    requires forall e, f :: e in t.entries && f in Contents(v) ==> f.seqno < e.seqno
    requires t !in j.inputs && Covers(v, j.level, j.inputs, j.base, j.smallest)
    ensures Covers(AddTable(v, flushLevel, t), j.level, j.inputs, j.base, j.smallest)
  {
    var v' := AddTable(v, flushLevel, t);
    AddTableTables(v, flushLevel, t);
    var next, next' := EntriesOf(LeftNext(v, j.level, j.inputs)), EntriesOf(LeftNext(v', j.level, j.inputs));
    assert next <= next' <= next + t.entries;
    forall e ensures e in EntriesOf(j.inputs) ==> e in Contents(v) { InputHeld(v, j, e); }
    hide AddTable, Contents, LeftNext, CompactionFits, EntriesOf, FlushFits;
    forall e, f ensures !Uncovers(Contents(v'), next', EntriesOf(j.inputs), j.smallest, j.base, e, f) {
      NewerUncoversNone(Contents(v), t.entries, next, next', EntriesOf(j.inputs), j.smallest, j.base, e, f);
    }
  }

  lemma NewerUncoversNone(all: set<Entry>, newer: set<Entry>, next: set<Entry>, next': set<Entry>,
                          inputs: set<Entry>, smallest: nat, base: set<Key>, e: Entry, f: Entry)
    requires forall x, y :: x in newer && y in all ==> y.seqno < x.seqno
    requires inputs <= all && next <= next' <= next + newer
    requires !Uncovers(all, next, inputs, smallest, base, e, f)
    ensures !Uncovers(all + newer, next', inputs, smallest, base, e, f)
  {
    assert f in newer ==> f in all + newer;
  }

  lemma InputHeld(v: Version, j: Job, e: Entry)
    requires |v.deep| == DEEP_LEVELS && CompactionFits(v, j.level, j.inputs, j.base)
    ensures e in EntriesOf(j.inputs) ==> e in Contents(v)
  {
    if e in EntriesOf(j.inputs) {
      var x :| x in j.inputs && e in x.entries;
      InTables(v, x);
      assert HasTable(v, x);
    }
  }

  /** Once a compaction covers, it covers until its edit is recorded, whatever is flushed meanwhile. */
  lemma JobCoversStays(s: DB, step: Step)
    requires Inv(s) && Enabled(s, step) && s.job.Some? && !s.job.value.recorded && JobCovers(s)
    requires Apply(s, step).job.Some?
    ensures JobCovers(Apply(s, step))
  {
    hide Inv, JobCovers, Apply, FlushFits, CompactionPicked;
    if step.FlushInstall? && s.flush.table.entries != {} {
      InstallCovers(s);
    } else {
      QuietCovers(s, step);
    }
  }

  lemma QuietCovers(s: DB, step: Step)
    requires Inv(s) && Enabled(s, step) && s.job.Some? && !s.job.value.recorded && JobCovers(s)
    requires Apply(s, step).job.Some? && (step.FlushInstall? ==> s.flush.table.entries == {})
    ensures JobCovers(Apply(s, step))
  {
    hide Covers, Inv;
    assert !step.Crash? && !step.CompactInstall? && !step.MoveInstall?;
    FlushedEmpty(s, step);
  }

  lemma FlushedEmpty(s: DB, step: Step)
    requires Inv(s) && Enabled(s, step) && s.job.Some? && !s.job.value.recorded && !step.Crash? && !step.CompactInstall? && !step.MoveInstall?
    requires step.FlushInstall? ==> s.flush.table.entries == {}
    ensures Apply(s, step).cur.version == s.cur.version
  {
    hide LogsOk, RecordsOk, MemFits, TablesOk, FilesOk, PinsOk, BackgroundOk, HistoryOk, NumbersOk, JobOk;
  }

  lemma InstallCovers(s: DB)
    requires Inv(s) && Enabled(s, FlushInstall) && s.job.Some? && s.flush.table.entries != {} && JobCovers(s)
    ensures JobCovers(Apply(s, FlushInstall))
  {
    var j, t := s.job.value, s.flush.table;
    FlushedFacts(s);
    AppliedInstall(s);
    DeleteKeepsJob(Installed(s));
    FlushCovers(s.cur.version, s.flush.level, t, j);
    hide Covers, Inv, Enabled, DeleteObsolete, Apply;
  }

  lemma DeleteKeepsJob(s: DB)
    ensures DeleteObsolete(s).job == s.job && DeleteObsolete(s).cur == s.cur
  {
  }

  lemma FlushedFacts(s: DB)
    requires s.flush.Recorded? && s.job.Some? && s.flush.table.entries != {} && Inv(s)
    ensures var j, t, v := s.job.value, s.flush.table, s.cur.version;
            && s.disk.version == AddTable(v, s.flush.level, t) && t !in j.inputs
            && |v.deep| == DEEP_LEVELS && FlushFits(v, s.flush.level, t.entries) && CompactionFits(v, j.level, j.inputs, j.base)
            && forall e, f :: e in t.entries && f in Contents(v) ==> f.seqno < e.seqno
  {
    hide LogsOk, RecordsOk, FilesOk, PinsOk, BackgroundOk, HistoryOk, FlushFits, CompactionFits, AddTable;
    assert s.job.value.level < DEEP_LEVELS && FromTwoLevels(s.cur.version, s.job.value.level, s.job.value.inputs) by { JobTwoLevels(s); }
    FlushedIsNew(s.cur, s.history, s.flush.table, s.job.value.level, s.job.value.inputs);
  }

  lemma JobTwoLevels(s: DB)
    requires Inv(s) && s.job.Some?
    ensures s.job.value.level < DEEP_LEVELS && FromTwoLevels(s.cur.version, s.job.value.level, s.job.value.inputs)
  {
    hide LogsOk, RecordsOk, FilesOk, PinsOk, BackgroundOk, HistoryOk, FlushOk, NumbersOk, MemFits, TablesOk;
  }

  // ------------------------------------------------------------ executions

  /** `run` lists the states of an execution that takes the given steps. */
  ghost predicate IsRun(run: seq<DB>, steps: seq<Step>) {
    && |run| == |steps| + 1
    && forall i :: 0 <= i < |steps| ==> Enabled(run[i], steps[i]) && run[i + 1] == Apply(run[i], steps[i])
  }

  /** No compaction whose edit is recorded among the first `n` steps uncovers a value. */
  ghost predicate AllCover(run: seq<DB>, steps: seq<Step>, n: nat)
    requires n <= |steps| < |run|
  {
    forall i :: 0 <= i < n && steps[i].CompactRecord? ==> JobCovers(run[i])
  }

  /** No compaction started among the first `n` steps leaves a value to uncover: a check on the version at the start. */
  ghost predicate AllStartCovered(run: seq<DB>, steps: seq<Step>, n: nat)
    requires n <= |steps| < |run|
  {
    forall i :: 0 <= i < n && steps[i].CompactStart? ==>
      Covers(run[i].cur.version, steps[i].level, steps[i].inputs, steps[i].base, steps[i].smallest)
  }

  lemma FreshOk()
    ensures Tables(Fresh().cur.version) == {} && TablesOk(Fresh().cur, {}) && TablesStandFor(Fresh().cur, {})
  {
    var v := Fresh().cur.version;
    forall i | 0 <= i < |v.deep| ensures v.deep[i] == {} {}
    assert Contents(v) == {} && UpTo({}, 0) == {};
    forall l: nat ensures LevelEntries(v, l) == {} {}
  }

  lemma FreshInv()
    ensures Inv(Fresh()) && ReadsOk(Fresh())
  {
    FreshOk();
    hide TablesOk, TablesStandFor;
  }

  lemma {:induction false} RunInv(run: seq<DB>, steps: seq<Step>, i: nat)
    requires IsRun(run, steps) && run[0] == Fresh() && i < |run|
    ensures Inv(run[i])
  {
    hide Inv, Enabled, Apply, Fresh;
    if i == 0 { FreshInv(); } else {
      RunInv(run, steps, i - 1);
      assert run[i - 1 + 1] == Apply(run[i - 1], steps[i - 1]);
      StepInv(run[i - 1], steps[i - 1]);
    }
  }

  /** Along a run whose compactions cover, reads stay right. */
  lemma {:induction false} RunReads(run: seq<DB>, steps: seq<Step>, i: nat)
    requires IsRun(run, steps) && run[0] == Fresh() && i < |run| && AllCover(run, steps, i)
    ensures Inv(run[i]) && ReadsOk(run[i])
  {
    hide Inv, ReadsOk, Enabled, Apply, Fresh, JobCovers;
    RunInv(run, steps, i);
    if i == 0 { FreshInv(); } else {
      RunReads(run, steps, i - 1);
      assert run[i - 1 + 1] == Apply(run[i - 1], steps[i - 1]);
      StepReads(run[i - 1], steps[i - 1]);
    }
  }

  /** And only along such a run: in its states up to `i` reads are right if and only if its compactions cover. */
  lemma RunReadsIff(run: seq<DB>, steps: seq<Step>, i: nat)
    requires IsRun(run, steps) && run[0] == Fresh() && i < |run|
    ensures (forall n :: 0 <= n <= i ==> ReadsOk(run[n])) <==> AllCover(run, steps, i)
  {
    hide Inv, ReadsOk, Enabled, Apply, Fresh, JobCovers;
    if AllCover(run, steps, i) {
      forall n | 0 <= n <= i ensures ReadsOk(run[n]) { RunReads(run, steps, n); }
    }
    if forall n :: 0 <= n <= i ==> ReadsOk(run[n]) {
      forall n | 0 <= n < i && steps[n].CompactRecord? ensures JobCovers(run[n]) {
        RunInv(run, steps, n);
        assert Enabled(run[n], steps[n]) && run[n + 1] == Apply(run[n], steps[n]);
        CompactRecordReads(run[n]);
      }
    }
  }

  /** It is enough to check each compaction when it starts. */
  lemma {:induction false} StartCovered(run: seq<DB>, steps: seq<Step>, i: nat)
    requires IsRun(run, steps) && run[0] == Fresh() && i < |run| && AllStartCovered(run, steps, i)
    ensures AllCover(run, steps, i)
    ensures run[i].job.Some? && !run[i].job.value.recorded ==> JobCovers(run[i])
  {
    hide Inv, Enabled, Apply, Fresh, Covers, JobCovers;
    if i == 0 { FreshJob(); } else {
      StartCovered(run, steps, i - 1);
      RunInv(run, steps, i - 1);
      var s, step := run[i - 1], steps[i - 1];
      assert run[i - 1 + 1] == Apply(s, step);
      RecordGuard(s, step);
      if run[i].job.Some? && !run[i].job.value.recorded {
        JobStarts(s, step);
        if s.job.Some? && !s.job.value.recorded { JobCoversStays(s, step); }
      }
    }
  }

  lemma FreshJob()
    ensures Fresh().job == None
  {
  }

  lemma RecordGuard(s: DB, step: Step)
    requires Enabled(s, step)
    ensures step.CompactRecord? ==> s.job.Some? && !s.job.value.recorded
  {
  }

  /** A job under way was under way before, or has just been started. */
  lemma JobStarts(s: DB, step: Step)
    requires Enabled(s, step) && Apply(s, step).job.Some? && !Apply(s, step).job.value.recorded
    ensures (s.job.Some? && !s.job.value.recorded) || step.CompactStart?
    ensures step.CompactStart? && Covers(s.cur.version, step.level, step.inputs, step.base, step.smallest) ==>
              JobCovers(Apply(s, step))
  {
    hide Covers;
  }

  /** A sequence at which the engine owes the right answer. */
  ghost predicate Readable(s: DB, t: nat) {
    t == s.lastSeq || t in s.snapshots.Values
  }

  lemma InvReads(s: DB, k: Key, t: nat)
    requires Inv(s) && ReadsOk(s) && Readable(s, t)
    ensures UniqueSeq(s.history) && t <= s.lastSeq
    ensures GetAt(s, k, t) == Read(s.history, k, t)
  {
    HistoryUnique(s);
    ReadsAreHistory(s, k, t);
  }

  /**
   In every state reached by a run whose compactions cover, Get at the last
   sequence and at every live snapshot returns what the history of writes says,
   whatever flushes and compactions have done to the tables.
   */
  lemma GetReadsHistory(run: seq<DB>, steps: seq<Step>, i: nat, k: Key, t: nat)
    requires IsRun(run, steps) && run[0] == Fresh() && i < |run| && AllCover(run, steps, i) && Readable(run[i], t)
    ensures GetAt(run[i], k, t) == Read(run[i].history, k, t)
  {
    hide *;
    RunReads(run, steps, i);
    InvReads(run[i], k, t);
  }

  /** A value that a reader at or above the floor is owed is still in the tables. */
  lemma ValueHeld(m: Manifest, h: set<Entry>, k: Key, t: nat)
    requires UniqueSeq(h) && TablesOk(m, h) && m.floor <= t && Read(UpTo(h, m.flushed), k, t).Some?
    ensures Read(Contents(m.version), k, t) == Read(UpTo(h, m.flushed), k, t)
  {
    var writes, held := UpTo(h, m.flushed), Contents(m.version);
    assert UniqueSeq(writes) && UniqueSeq(held);
    hide Contents, UpTo, Ordered;
    var e := Latest(writes, k, t).value;
    LatestNone(writes, k, t);
    NewestExists(writes, k, t);
    assert Newest(writes, k, t, e) && e.op.Put?;
    assert e in held by { assert !Hidden(writes, e, m.floor); }
    ReadNewest(held, k, t, e);
  }

  /**
   In every state, even after a compaction that uncovers: what the history of
   writes says is a value is what Get returns. Only a deleted key can read
   otherwise, and only one whose deletion every reader sees.
   */
  lemma ValuesRead(s: DB, k: Key, t: nat)
    requires Inv(s) && Readable(s, t)
    ensures Read(s.history, k, t).Some? ==> GetAt(s, k, t) == Read(s.history, k, t)
  {
    HistoryUnique(s);
    ReadableTables(s, t);
    hide *;
    ValueStacked(s, k, t);
  }

  lemma ReadableTables(s: DB, t: nat)
    requires Inv(s) && Readable(s, t)
    ensures TablesOk(s.cur, s.history) && s.cur.floor <= t
    ensures MemFits(s.history, s.mem, ImmSet(s), s.cur.flushed, s.immSeq) && s.cur.flushed <= s.immSeq
  {
    hide LogsOk, RecordsOk, FilesOk, JobOk, FlushOk, PinsOk, BackgroundOk, HistoryOk, MemFits, TablesOk;
  }

  lemma ValueStacked(s: DB, k: Key, t: nat)
    requires TablesOk(s.cur, s.history) && s.cur.floor <= t && UniqueSeq(s.history)
    requires MemFits(s.history, s.mem, ImmSet(s), s.cur.flushed, s.immSeq) && s.cur.flushed <= s.immSeq
    ensures Read(s.history, k, t).Some? ==> GetAt(s, k, t) == Read(s.history, k, t)
  {
    assert UniqueSeq(Contents(s.cur.version)) && Ordered(s.cur.version);
    hide MemFits, UniqueSeq, Visible, Latest, TablesOk, Ordered, Contents, UpTo;
    GetStack(s.mem, ImmSet(s), s.cur.version, s.lastSeq, k, t);
    HistoryStack(s.history, s.mem, ImmSet(s), s.cur.flushed, s.immSeq, k, t);
    if Read(UpTo(s.history, s.cur.flushed), k, t).Some? { ValueHeld(s.cur, s.history, k, t); }
  }

  /** Between crashes the history only grows, past the last sequence. */
  lemma StepHistory(s: DB, step: Step)
    requires Inv(s) && Enabled(s, step) && !step.Crash?
    ensures var s' := Apply(s, step);
            && s.lastSeq <= s'.lastSeq && s.history <= s'.history
            && forall e :: e in s'.history && e !in s.history ==> s.lastSeq < e.seqno
  {
    hide TablesOk, LogsOk, RecordsOk, FilesOk, JobOk, FlushOk, PinsOk, MemFits, HistoryOk;
    if step.WriteStart? { StampRange(step.ops, s.lastSeq); }
  }

  lemma SnapshotKept(s: DB, step: Step, id: nat)
    requires Enabled(s, step) && !step.Crash? && id in s.snapshots && id in Apply(s, step).snapshots
    ensures Apply(s, step).snapshots[id] == s.snapshots[id]
  {
    hide UpTo, CompactionPicked, FlushFits, Remains, Recovered, FlushedManifest, CompactedManifest, Stamp, IsSmallest, Replace, AddTable, EntriesOf, Kept, NewestFirst, CompactionFits, Reopened;
  }

  lemma SnapshotStep(s: DB, step: Step, id: nat, k: Key)
    requires Inv(s) && ReadsOk(s) && Enabled(s, step) && !step.Crash? && (step.CompactRecord? ==> JobCovers(s))
    requires id in s.snapshots && id in Apply(s, step).snapshots
    ensures Apply(s, step).snapshots[id] == s.snapshots[id]
    ensures GetAt(Apply(s, step), k, s.snapshots[id]) == GetAt(s, k, s.snapshots[id])
  {
    hide Inv, ReadsOk, Enabled, Apply, GetAt, Read, JobCovers;
    var s', t := Apply(s, step), s.snapshots[id];
    StepInv(s, step);
    StepReads(s, step);
    StepHistory(s, step);
    SnapshotKept(s, step, id);
    assert Readable(s, t) && Readable(s', t);
    InvReads(s, k, t);
    InvReads(s', k, t);
    NewerWritesUnseen(s.history, s'.history, k, t);
  }

  /**
   Snapshot stability: as long as a snapshot lives, Get through it returns the
   same value for every key.
   */
  lemma {:induction false} SnapshotStable(run: seq<DB>, steps: seq<Step>, i: nat, j: nat, id: nat, k: Key)
    requires IsRun(run, steps) && run[0] == Fresh() && i <= j < |run| && AllCover(run, steps, j)
    requires forall m :: i <= m <= j ==> id in run[m].snapshots
    requires forall m :: i <= m < j ==> !steps[m].Crash?
    ensures run[j].snapshots[id] == run[i].snapshots[id]
    ensures GetAt(run[j], k, run[j].snapshots[id]) == GetAt(run[i], k, run[i].snapshots[id])
    decreases j - i
  {
    hide Inv, ReadsOk, Enabled, Apply, GetAt, Fresh, JobCovers;
    if i < j {
      SnapshotStable(run, steps, i, j - 1, id, k);
      RunReads(run, steps, j - 1);
      assert run[j - 1 + 1] == Apply(run[j - 1], steps[j - 1]);
      SnapshotStep(run[j - 1], steps[j - 1], id, k);
    }
  }

  /**
   A reader that holds memtables and a version keeps reading the history at its
   own sequence, even while its memtable goes on filling and compactions drop
   tables from newer versions.
   */
  lemma ReaderStable(run: seq<DB>, steps: seq<Step>, i: nat, id: nat, later: set<Entry>, k: Key)
    requires IsRun(run, steps) && run[0] == Fresh() && i < |run| && AllCover(run, steps, i) && id in run[i].pins
    requires forall e :: e in later ==> run[i].pins[id].seqno < e.seqno
    requires UniqueSeq(run[i].pins[id].mem + later)
    ensures var p := run[i].pins[id];
            Seen(Get(ViewLayers(p.(mem := p.mem + later)), k, p.seqno)) == Read(run[i].history, k, p.seqno)
  {
    hide NumbersOk, MemFits, LogsOk, RecordsOk, TablesOk, FilesOk, FlushOk, JobOk, BackgroundOk, HistoryOk;
    RunReads(run, steps, i);
    var p := run[i].pins[id];
    hide Inv, AllCover, IsRun, Fresh;
    assert ViewSees(p, run[i].history);
    var a, b := ViewLayers(p), ViewLayers(p.(mem := p.mem + later));
    assert a[1..] == b[1..];
    assert Visible(p.mem + later, k, p.seqno) <==> Visible(p.mem, k, p.seqno);
    SameVisible(p.mem + later, p.mem, k, p.seqno);
  }

  /** A table of the descriptor has `e`, or a log that its recovery replays, or `e` is settled for every reader. */
  ghost predicate Durable(m: Manifest, logs: map<nat, set<Entry>>, history: set<Entry>, e: Entry) {
    e in Contents(m.version) || e in LogsFrom(logs, m.log) || Settled(UpTo(history, m.flushed), e, m.floor)
  }

  lemma HistoryDurable(s: DB, e: Entry)
    requires Inv(s) && e in s.history
    ensures Durable(s.disk, s.logs, s.history, e)
  {
    hide LogsOk, RecordsOk, MemFits, FilesOk, JobOk, FlushOk, PinsOk, HistoryOk, NumbersOk, BackgroundOk, Settled, Contents, Ordered;
    if s.disk.flushed < e.seqno { UnflushedIsLogged(s, e); }
  }

  /**
   And a reader never misses a value, in any run: what the history says is a
   value at its sequence is what it reads.
   */
  lemma ReaderValues(run: seq<DB>, steps: seq<Step>, i: nat, id: nat, k: Key)
    requires IsRun(run, steps) && run[0] == Fresh() && i < |run| && id in run[i].pins
    ensures var p := run[i].pins[id];
            Read(run[i].history, k, p.seqno).Some? ==> Seen(Get(ViewLayers(p), k, p.seqno)) == Read(run[i].history, k, p.seqno)
  {
    RunInv(run, steps, i);
    PinnedOk(run[i], id);
    hide IsRun, Inv, Fresh;
    var p, h := run[i].pins[id], run[i].history;
    ViewValue(p, h, k);
  }

  lemma PinnedOk(s: DB, id: nat)
    requires Inv(s) && id in s.pins
    ensures ViewOk(s.pins[id], s.history) && UniqueSeq(s.history)
  {
    HistoryUnique(s);
    hide NumbersOk, MemFits, LogsOk, RecordsOk, TablesOk, FilesOk, FlushOk, JobOk, BackgroundOk, HistoryOk, ViewOk;
  }

  lemma ViewValue(p: View, h: set<Entry>, k: Key)
    requires ViewOk(p, h) && UniqueSeq(h)
    ensures Read(h, k, p.seqno).Some? ==> Read(Union(ViewLayers(p)), k, p.seqno) == Read(h, k, p.seqno)
    ensures Seen(Get(ViewLayers(p), k, p.seqno)) == Read(Union(ViewLayers(p)), k, p.seqno)
  {
    var layers := ViewLayers(p);
    hide ViewLayers, Layered, Union;
    assert UniqueSeq(Union(layers));
    GetFindsLatest(layers, k, p.seqno);
    if Read(h, k, p.seqno).Some? {
      LatestNone(h, k, p.seqno);
      NewestExists(h, k, p.seqno);
      var e :| Newest(h, k, p.seqno, e);
      ReadNewest(h, k, p.seqno, e);
      ReadNewest(Union(layers), k, p.seqno, e);
    }
  }

  /**
   No acknowledged write is lost: in every reachable state of every run,
   crashes included, the history contains every write acknowledged and not torn
   from an unsynced log, every write acknowledged under sync, and nothing that
   was never written; all of it is in the tables or logs that a recovery reads,
   but for what a version or deletion that every reader sees has replaced; and
   Get returns every value that the history has.
   */
  lemma AcknowledgedSurvive(run: seq<DB>, steps: seq<Step>, i: nat)
    requires IsRun(run, steps) && run[0] == Fresh() && i < |run|
    ensures run[i].safe <= run[i].acked <= run[i].history <= run[i].attempted
    ensures forall e :: e in run[i].history ==> Durable(run[i].disk, run[i].logs, run[i].history, e)
    ensures forall k, t :: Readable(run[i], t) && Read(run[i].history, k, t).Some? ==> GetAt(run[i], k, t) == Read(run[i].history, k, t)
  {
    RunInv(run, steps, i);
    assert run[i].safe <= run[i].acked <= run[i].history <= run[i].attempted;
    hide *;
    forall e | e in run[i].history ensures Durable(run[i].disk, run[i].logs, run[i].history, e) { HistoryDurable(run[i], e); }
    forall k, t | Readable(run[i], t) && Read(run[i].history, k, t).Some? ensures GetAt(run[i], k, t) == Read(run[i].history, k, t) {
      ValuesRead(run[i], k, t);
    }
  }

  /** A crash takes nothing from the acknowledged writes but what the logs lost. */
  lemma CrashKeepsAcknowledged(s: DB, step: Step)
    requires Inv(s) && Enabled(s, step)
    ensures var s' := Apply(s, step);
            && (!step.Crash? ==> s.acked <= s'.acked)
            && (step.Crash? ==> s'.acked == s.acked - step.restart.lost)
            && s.safe <= s'.safe
  {
    hide Inv;
  }

  /**
   Once acknowledged, a write stays: in every later state, across any number of
   crashes that do not tear it from a log, the tables or logs that a recovery
   reads have it, unless a version or deletion that every reader sees has
   replaced it; and a reader for whom it is the newest version of its key gets
   its value. A write acknowledged under sync cannot be torn.
   */
  lemma {:induction false} AcknowledgedStays(run: seq<DB>, steps: seq<Step>, i: nat, j: nat, e: Entry)
    requires IsRun(run, steps) && run[0] == Fresh() && i <= j < |run| && e in run[i].acked
    requires e in run[i].safe || forall m :: i <= m < j && steps[m].Crash? ==> e !in steps[m].restart.lost
    ensures e in run[j].acked && e in run[j].history && (e in run[i].safe ==> e in run[j].safe)
    ensures Durable(run[j].disk, run[j].logs, run[j].history, e)
    ensures forall t :: Readable(run[j], t) && Newest(run[j].history, e.key, t, e) && e.op.Put? ==>
              GetAt(run[j], e.key, t) == Some(e.op.value)
    ensures AllCover(run, steps, j) ==> TablesStandFor(run[j].disk, run[j].history)
    decreases j - i
  {
    hide Enabled, Apply, Fresh, GetAt, TablesStandFor, Inv, Durable, Readable, Newest, AllCover, Read;
    RunInv(run, steps, j);
    if AllCover(run, steps, j) { CoveredTables(run, steps, j); }
    AcknowledgedSurvive(run, steps, j);
    if i < j {
      AcknowledgedStays(run, steps, i, j - 1, e);
      RunInv(run, steps, j - 1);
      assert run[j - 1 + 1] == Apply(run[j - 1], steps[j - 1]);
      CrashKeepsAcknowledged(run[j - 1], steps[j - 1]);
      if e in run[i].safe { SyncedNotLost(run[j - 1], steps[j - 1], e); }
    }
    forall t | Readable(run[j], t) && Newest(run[j].history, e.key, t, e) && e.op.Put?
      ensures GetAt(run[j], e.key, t) == Some(e.op.value)
    {
      NewestRead(run[j], t, e);
    }
  }

  lemma CoveredTables(run: seq<DB>, steps: seq<Step>, i: nat)
    requires IsRun(run, steps) && run[0] == Fresh() && i < |run| && AllCover(run, steps, i)
    ensures TablesStandFor(run[i].disk, run[i].history)
  {
    RunReads(run, steps, i);
    hide Inv, TablesStandFor;
  }

  lemma NewestRead(s: DB, t: nat, e: Entry)
    requires Inv(s) && Readable(s, t) && Newest(s.history, e.key, t, e) && e.op.Put?
    ensures GetAt(s, e.key, t) == Some(e.op.value)
  {
    HistoryUnique(s);
    hide Inv, GetAt, Readable;
    LatestIs(s.history, e.key, t, e);
    ValuesRead(s, e.key, t);
  }

  lemma SyncedNotLost(s: DB, step: Step, e: Entry)
    requires Inv(s) && Enabled(s, step) && e in s.safe
    ensures step.Crash? ==> e !in step.restart.lost
  {
    hide TablesOk, LogsOk, RecordsOk, FilesOk, JobOk, FlushOk, PinsOk, MemFits, NumbersOk, BackgroundOk;
  }

  /**
   File safety: in every reachable state at most one background call exists,
   and every table named by the current version, the descriptor on disk, a
   reader or a running compaction is on disk with its contents, as are the
   outputs still being built and the logs a recovery would replay.
   */
  lemma FilesInUseExist(run: seq<DB>, steps: seq<Step>, i: nat)
    requires IsRun(run, steps) && run[0] == Fresh() && i < |run|
    ensures var s := run[i];
            && s.calls <= 1
            && FilesOk(s)
            && (forall e :: e in s.history && s.disk.flushed < e.seqno ==> e in LogsFrom(s.logs, s.disk.log))
  {
    RunInv(run, steps, i);
    var s := run[i];
    forall e | e in s.history && s.disk.flushed < e.seqno ensures e in LogsFrom(s.logs, s.disk.log) {
      UnflushedIsLogged(s, e);
    }
  }
}
