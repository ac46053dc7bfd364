/**
 A run of a new database in which Get at a live snapshot returns a value that
 was deleted before the snapshot was taken: what Levels.BoundaryUncovers shows
 of one version does happen.
 */
module Resurfacing {
  import opened Bytes
  import opened Versions
  import opened Compaction
  import opened Levels
  import opened Engine
  import opened EngineProofs

  /** Some steps of the engine lead from `a` to `s`. */
  ghost predicate Leads(a: DB, s: DB) {
    exists run, steps :: IsRun(run, steps) && run[0] == a && run[|steps|] == s
  }

  ghost predicate Reached(s: DB) { Leads(Fresh(), s) }

  /** What leads to `s` leads to `r`. */
  ghost predicate Onward(s: DB, r: DB) { forall a :: Leads(a, s) ==> Leads(a, r) }

  lemma SelfLeads(s: DB)
    ensures Leads(s, s)
  {
    assert IsRun([s], []);
  }

  lemma Next(s: DB, step: Step) returns (r: DB)
    requires Enabled(s, step)
    ensures Onward(s, r) && r == Apply(s, step)
  {
    hide Enabled, Apply;
    r := Apply(s, step);
    forall a | Leads(a, s) ensures Leads(a, r) {
      var run, steps :| IsRun(run, steps) && run[0] == a && run[|steps|] == s;
      OneMore(run, steps, step);
    }
  }

  lemma OneMore(run: seq<DB>, steps: seq<Step>, step: Step)
    requires IsRun(run, steps) && Enabled(run[|steps|], step)
    ensures Leads(run[0], Apply(run[|steps|], step))
  {
    hide Enabled, Apply;
    var run', steps' := run + [Apply(run[|steps|], step)], steps + [step];
    forall i | 0 <= i < |steps'| ensures Enabled(run'[i], steps'[i]) && run'[i + 1] == Apply(run'[i], steps'[i]) {
      if i < |steps| { assert run'[i] == run[i] && run'[i + 1] == run[i + 1] && steps'[i] == steps[i]; }
    }
    assert IsRun(run', steps');
  }

  lemma ReachedInv(s: DB)
    requires Reached(s)
    ensures Inv(s)
  {
    hide Inv, Fresh, Enabled, Apply;
    var run, steps :| IsRun(run, steps) && run[0] == Fresh() && run[|steps|] == s;
    RunInv(run, steps, |steps|);
  }

  /** Reached, with nothing under way. */
  ghost predicate Idle(s: DB) {
    && Reached(s) && s.writing == None && s.imm == None && s.flush == NoFlush && s.job == None
    && !s.bgError && !s.broken && !s.scheduled && s.calls == 0
  }

  // ------------------------------------------------------- a few steps at once

  lemma LogAtHand(s: DB)
    requires Reached(s)
    ensures s.memLog in s.logs && s.memLog in s.records && s.lastSeq < MAX_SEQUENCE
  {
    ReachedInv(s);
    hide MemFits, TablesOk, FilesOk, FlushOk, JobOk, BackgroundOk, PinsOk, HistoryOk, LogUnique, MemLog, ImmLog, DiskPoint;
  }

  /** DB::Write. */
  lemma Write(s: DB, ops: seq<(Key, Op)>) returns (r: DB)
    requires Idle(s) && s.lastSeq + |ops| < MAX_SEQUENCE
    ensures Idle(r) && r.lastSeq == s.lastSeq + |ops| && r.cur == s.cur && r.snapshots == s.snapshots
    ensures r.mem == s.mem + Stamp(ops, s.lastSeq) && r.history == s.history + Stamp(ops, s.lastSeq)
  {
    hide Leads, Fresh, Stamp;
    LogAtHand(s);
    r := Next(s, WriteStart(ops, Logged, false));
    r := Next(r, WriteCommit);
  }

  lemma Snapshot(s: DB, id: nat) returns (r: DB)
    requires Idle(s) && id !in s.snapshots
    ensures Idle(r) && r == s.(snapshots := s.snapshots[id := s.lastSeq])
  {
    hide Leads, Fresh;
    r := Next(s, GetSnapshot(id));
  }

  lemma Release(s: DB, id: nat) returns (r: DB)
    requires Idle(s) && id in s.snapshots
    ensures Idle(r) && r == s.(snapshots := s.snapshots - {id})
  {
    hide Leads, Fresh;
    r := Next(s, ReleaseSnapshot(id));
  }

  /** What the clients see of a state stays as it is in the background. */
  ghost predicate SameWrites(s: DB, r: DB) {
    r.lastSeq == s.lastSeq && r.snapshots == s.snapshots && r.history == s.history
  }

  lemma Deleted(s: DB)
    ensures var r := DeleteObsolete(s);
            r == s.(logs := r.logs, records := r.records, files := r.files)
  {
  }

  /** The memtable becomes a table. */
  lemma Flush(s: DB, level: nat) returns (r: DB, t: Table)
    requires Idle(s) && s.mem != {} && FlushFits(s.cur.version, level, s.mem)
    ensures Idle(r) && SameWrites(s, r) && r.mem == {}
    ensures t.entries == s.mem && r.cur.version == AddTable(s.cur.version, level, t)
  {
    hide Leads, Fresh, Enabled, AddTable, FlushFits;
    r, t := Build(s);
    r := Install(r, level);
  }

  /** The old memtable is in a table whose edit is still to be written. */
  ghost predicate ToRecord(r: DB) {
    r.flush.Built? && r.writing == None && r.job == None && r.scheduled && r.calls == 1 && !r.bgError && !r.broken
  }

  lemma Build(s: DB) returns (r: DB, t: Table)
    requires Idle(s)
    ensures Onward(s, r) && SameWrites(s, r) && ToRecord(r) && r.mem == {} && r.cur == s.cur
    ensures t.entries == s.mem && r.flush == Built(t)
  {
    hide Leads, Fresh;
    r := Next(s, Switch);
    r := Next(r, Schedule);
    r := Next(r, FlushStart);
    t := r.flush.table;
    r := Next(r, FlushFinish);
  }

  lemma Install(s: DB, level: nat) returns (r: DB)
    requires ToRecord(s) && s.mem == {} && s.flush.table.entries != {} && FlushFits(s.cur.version, level, s.flush.table.entries)
    ensures Onward(s, r) && SameWrites(s, r) && r.mem == {} && (Reached(r) ==> Idle(r))
    ensures r.cur.version == AddTable(s.cur.version, level, s.flush.table)
  {
    hide Leads, Fresh, DeleteObsolete, AddTable, FlushFits;
    r := Next(s, FlushRecord(level));
    Deleted(Installed(r));
    r := Next(r, FlushInstall);
    r := Next(r, CallEnd);
  }

  ghost function KeysOf(inputs: set<Table>): set<Key> { set e | e in EntriesOf(inputs) :: e.key }

  lemma SameSmallest(s: DB, r: DB, n: nat)
    requires IsSmallest(s, n) && r.snapshots == s.snapshots && r.lastSeq == s.lastSeq
    ensures IsSmallest(r, n)
  {
  }

  /** A compaction under way, none of whose output is written yet. */
  lemma Start(s: DB, level: nat, inputs: set<Table>, base: set<Key>, smallest: nat) returns (r: DB)
    requires Idle(s) && IsSmallest(s, smallest) && CompactionPicked(s.cur.version, level, inputs, base)
    requires base <= KeysOf(inputs)
    ensures Onward(s, r) && r == s.(scheduled := true, calls := 1, job := Some(Job(level, inputs, base, smallest, s.cur.version, [], false, false)))
  {
    hide Leads, Fresh, CompactionPicked, IsSmallest, EntriesOf;
    r := Next(s, Schedule);
    SameSmallest(s, r, smallest);
    r := Next(r, CompactStart(level, inputs, base, smallest));
  }

  lemma Output(s: DB, entries: set<Entry>) returns (r: DB, t: Table)
    requires s.job.Some? && !s.job.value.recorded && s.flush == NoFlush
    ensures Onward(s, r) && t.entries == entries
    ensures r == s.(job := Some(s.job.value.(outputs := s.job.value.outputs + [t])),
                    pendingOutputs := r.pendingOutputs, files := r.files, nextFile := r.nextFile)
  {
    hide Leads, Fresh;
    r := Next(s, CompactOutput(entries));
    t := Table(s.nextFile, entries);
  }

  lemma Finish(s: DB) returns (r: DB)
    requires Enabled(s, CompactRecord) && s.imm == None && s.writing == None && s.calls == 1 && s.scheduled && !s.bgError
    requires !s.job.value.moved
    ensures Onward(s, r) && SameWrites(s, r) && r.mem == s.mem && (Reached(r) ==> Idle(r))
    ensures r.cur.version == Replace(s.cur.version, s.job.value.level, s.job.value.inputs, s.job.value.outputs)
  {
    hide Leads, Fresh, DeleteObsolete, Replace, Kept, EntriesOf;
    r := Next(s, CompactRecord);
    Deleted(Finished(r));
    r := Next(r, CompactInstall);
    r := Next(r, CallEnd);
  }

  // ------------------------------------------------------------------ the run

  const A1: Entry := Entry(0.0, 1, Put([1]))
  const B2: Entry := Entry(1.0, 2, Put([2]))
  const B3: Entry := Entry(1.0, 3, Delete)
  const A4: Entry := Entry(0.0, 4, Put([4]))

  /** All tables are in levels 2 and 3. */
  ghost function Two(two: set<Table>, three: set<Table>): Version { Version([], [{}, two, three, {}, {}, {}]) }

  /** A memtable goes to level 2 when nothing overlaps it there or above. */
  lemma FitsTwo(three: set<Table>, es: set<Entry>, t: Table)
    ensures FlushFits(Two({}, three), 2, es) && AddTable(Two({}, three), 2, t) == Two({t}, three)
  {
    var v := Two({}, three);
    assert v.deep[0] == {} && v.deep[1] == {};
    var a, b := AddTable(v, 2, t), Two({t}, three);
    assert {} + {t} == {t};
    forall i | 0 <= i < 6 ensures a.deep[i] == b.deep[i] {}
    assert a.deep == b.deep;
  }

  lemma Stamps()
    ensures Stamp([(0.0, Put([1])), (1.0, Put([2]))], 0) == {A1, B2}
    ensures Stamp([(1.0, Delete)], 2) == {B3} && Stamp([(0.0, Put([4]))], 3) == {A4}
  {
    var ops := [(0.0, Put([1])), (1.0, Put([2]))];
    assert Entry(ops[0].0, 0 + 1 + 0, ops[0].1) == A1 && Entry(ops[1].0, 0 + 1 + 1, ops[1].1) == B2;
    var one: seq<(Key, Op)>, other: seq<(Key, Op)> := [(1.0, Delete)], [(0.0, Put([4]))];
    assert Entry(one[0].0, 2 + 1 + 0, one[0].1) == B3 && Entry(other[0].0, 3 + 1 + 0, other[0].1) == A4;
  }

  /** A value and its deletion, with a snapshot between them, are flushed. */
  lemma Flushed() returns (s: DB, t: Table)
    ensures Idle(s) && s.mem == {} && s.lastSeq == 3 && s.snapshots == map[0 := 2] && s.history == {A1, B2, B3}
    ensures s.cur.version == Two({t}, {}) && t.entries == {A1, B2, B3}
  {
    SelfLeads(Fresh());
    Stamps();
    s := Fresh();
    assert s.cur.version == Two({}, {});
    hide Leads, Fresh, Stamp, Two, AddTable, FlushFits;
    s := Write(s, [(0.0, Put([1])), (1.0, Put([2]))]);
    s := Snapshot(s, 0);
    s := Write(s, [(1.0, Delete)]);
    FitsTwo({}, s.mem, Table(0, {}));
    s, t := Flush(s, 2);
    FitsTwo({}, {}, t);
  }

  lemma Alone(t: Table)
    ensures EntriesOf({t}) == t.entries
  {
  }

  lemma Pair(t: Table, u: Table)
    ensures EntriesOf({t, u}) == t.entries + u.entries
    ensures (set x | x in [t, u]) == {t, u} && (set x | x in [t]) == {t}
  {
  }

  lemma AlonePicked(t: Table)
    ensures CompactionPicked(Two({t}, {}), 2, {t}, {})
  {
    var v := Two({t}, {});
    assert v.deep[1] == {t} && v.deep[2] == {};
    hide EntriesOf, LevelInputs, Overlap;
  }

  /** For the sake of the snapshot all is kept, and two files are made of it. */
  lemma SplitRecord(s: DB, t: Table, u: Table, w: Table)
    requires s.job.Some? && !s.job.value.recorded && s.flush == NoFlush && !s.broken
    requires s.job.value.inputs == {t} && s.job.value.smallest == 2 && s.job.value.base == {} && s.job.value.outputs == [u, w]
    requires t.entries == {A1, B2, B3} && u.entries == {A1, B3} && w.entries == {B2}
    ensures Enabled(s, CompactRecord)
  {
    Alone(t);
    Pair(u, w);
    assert AllBefore(u, w);
    assert EntriesOf({u, w}) == Kept({A1, B2, B3}, 2, {}) by {
      forall e | e in {A1, B2, B3} ensures !Hidden({A1, B2, B3}, e, 2) {}
    }
    hide EntriesOf, Kept, AllBefore;
  }

  lemma ReplacedTwo(two: set<Table>, three: set<Table>, inputs: set<Table>, outs: seq<Table>)
    ensures Replace(Two(two, three), 2, inputs, outs) == Two(two - inputs, (three - inputs) + (set o | o in outs))
  {
    var a, b := Replace(Two(two, three), 2, inputs, outs), Two(two - inputs, (three - inputs) + (set o | o in outs));
    assert {} - inputs == {};
    forall i | 0 <= i < 6 ensures a.deep[i] == b.deep[i] {}
    assert a.deep == b.deep;
  }

  lemma SplitVersion(t: Table)
    ensures forall u, w :: Replace(Two({t}, {}), 2, {t}, [u, w]) == Two({}, {u, w})
  {
    forall u, w ensures Replace(Two({t}, {}), 2, {t}, [u, w]) == Two({}, {u, w}) {
      ReplacedTwo({t}, {}, {t}, [u, w]);
      Pair(u, w);
      assert {t} - {t} == {} && {} - {t} + {u, w} == {u, w};
    }
  }

  /** The deletion ends one file of level 3, the value is in the next one. */
  lemma Split() returns (s: DB, u: Table, w: Table)
    ensures Idle(s) && s.mem == {} && s.lastSeq == 3 && s.snapshots == map[0 := 2] && s.history == {A1, B2, B3}
    ensures s.cur.version == Two({}, {u, w}) && u.entries == {A1, B3} && w.entries == {B2}
  {
    var t: Table;
    s, t := Flushed();
    AlonePicked(t);
    OnlySnapshot(s, 0, 2);
    SplitVersion(t);
    hide Leads, Fresh, CompactionPicked, IsSmallest, Enabled, Replace, Two, EntriesOf, KeysOf;
    s, u := StartWith(s, 2, {t}, {}, 2, {A1, B3});
    s, w := Output(s, {B2});
    assert s.job.value.outputs == [u, w];
    SplitRecord(s, t, u, w);
    s := Finish(s);
  }

  /** A newer version of the first file's first key comes above it. */
  lemma Above() returns (s: DB, a: Table, u: Table, w: Table)
    ensures Idle(s) && s.mem == {} && s.lastSeq == 4 && s.snapshots == map[1 := 4] && s.history == {A1, B2, B3, A4}
    ensures s.cur.version == Two({a}, {u, w}) && a.entries == {A4} && u.entries == {A1, B3} && w.entries == {B2}
  {
    hide Leads, Fresh, Stamp, Two, AddTable, FlushFits;
    Stamps();
    s, u, w := Split();
    s := Release(s, 0);
    s := Write(s, [(0.0, Put([4]))]);
    FitsTwo({u, w}, s.mem, u);
    s, a := Flush(s, 2);
    FitsTwo({u, w}, {}, a);
    s := Snapshot(s, 1);
  }

  lemma AbovePicked(a: Table, u: Table, w: Table)
    requires a.entries == {A4} && u.entries == {A1, B3} && w.entries == {B2}
    ensures CompactionPicked(Two({a}, {u, w}), 2, {a, u}, {1.0})
  {
    var v := Two({a}, {u, w});
    assert v.deep[1] == {a} && v.deep[2] == {u, w};
    assert B3 in u.entries && B3 !in a.entries && LevelInputs(v, 2, {a, u}) == {a};
    Alone(a);
    assert A4 in a.entries && A1 in u.entries && Overlap(a.entries, u.entries) && !Overlap(a.entries, w.entries);
    forall l: nat | 4 <= l <= DEEP_LEVELS ensures LevelEntries(v, l) == {} { assert v.deep[l - 1] == {}; }
    hide Overlap, LevelEntries, EntriesOf, LevelInputs;
  }

  lemma DropRecord(s: DB, a: Table, u: Table, b: Table)
    requires s.job.Some? && !s.job.value.recorded && s.flush == NoFlush && !s.broken
    requires s.job.value.inputs == {a, u} && s.job.value.smallest == 4 && s.job.value.base == {1.0} && s.job.value.outputs == [b]
    requires a.entries == {A4} && u.entries == {A1, B3} && b.entries == {A4}
    ensures Enabled(s, CompactRecord)
  {
    Pair(a, u);
    Pair(b, b);
    Alone(b);
    assert a.entries + u.entries == {A4, A1, B3};
    assert Kept({A4, A1, B3}, 4, {1.0}) == {A4} by {
      assert Hidden({A4, A1, B3}, A1, 4) by { assert A4 in {A4, A1, B3}; }
    }
    hide EntriesOf, Kept;
  }

  lemma DropVersion(a: Table, u: Table, w: Table, b: Table)
    requires a.entries == {A4} && u.entries == {A1, B3} && w.entries == {B2}
    ensures Replace(Two({a}, {u, w}), 2, {a, u}, [b]) == Two({}, {w, b})
  {
    assert B2 in w.entries && B2 !in a.entries && B2 !in u.entries;
    ReplacedTwo({a}, {u, w}, {a, u}, [b]);
    Pair(b, b);
    assert {a} - {a, u} == {} && {u, w} - {a, u} + {b} == {w, b};
  }

  lemma KeysAtHand(a: Table, u: Table)
    requires B3 in u.entries
    ensures {1.0} <= KeysOf({a, u})
  {
    assert B3 in EntriesOf({a, u}) && B3.key == 1.0;
  }

  lemma TwoContents(two: set<Table>, three: set<Table>)
    ensures Contents(Two(two, three)) == EntriesOf(two) + EntriesOf(three)
  {
    var v := Two(two, three);
    assert v.deep[1] == two && v.deep[2] == three;
    assert Tables(v) == two + three;
    SplitEntries(two, three);
  }

  /** With nothing in memory Get answers from the tables. */
  lemma TablesAnswer(s: DB, es: set<Entry>, k: Key, t: nat, e: Entry)
    requires Idle(s) && s.mem == {} && Contents(s.cur.version) == es && Newest(es, k, t, e)
    ensures GetAt(s, k, t) == if e.op.Put? then Some(e.op.value) else None
  {
    ReachedInv(s);
    ReachedTables(s);
    hide Inv, Ordered, Contents, UniqueSeq, Reached;
    GetStack({}, {}, s.cur.version, s.lastSeq, k, t);
    LatestIs(es, k, t, e);
  }

  lemma ReachedTables(s: DB)
    requires Inv(s)
    ensures Ordered(s.cur.version) && UniqueSeq(Contents(s.cur.version)) && UniqueSeq(s.history)
  {
    HistoryUnique(s);
    InvTables(s);
    hide Inv, Ordered;
  }

  /**
   In a run of a new database, key 1.0 is deleted, then a snapshot is taken,
   through which Get finds nothing; the run goes on with one compaction, picked
   by the rules of SetupOtherInputs, and Get through the same snapshot returns
   the deleted value.
   */
  lemma DeletedValueReads() returns (s: DB, r: DB)
    ensures Leads(Fresh(), s) && Leads(s, r) && 1 in s.snapshots && s.snapshots == r.snapshots && s.history == r.history
    ensures Read(s.history, 1.0, s.snapshots[1]) == None
    ensures GetAt(s, 1.0, s.snapshots[1]) == None
    ensures GetAt(r, 1.0, s.snapshots[1]) == Some([2])
  {
    hide Leads, Fresh, GetAt, Read, Two;
    var a, u, w;
    s, a, u, w := Above();
    DeletedBefore(s, a, u, w);
    r := Uncover(s, a, u, w);
    SelfLeads(s);
  }

  lemma OnlySnapshot(s: DB, id: nat, n: nat)
    requires s.snapshots == map[id := n]
    ensures IsSmallest(s, n)
  {
    assert s.snapshots[id] == n;
  }

  lemma Uncover(s: DB, a: Table, u: Table, w: Table) returns (r: DB)
    requires Idle(s) && s.mem == {} && s.snapshots == map[1 := 4] && s.cur.version == Two({a}, {u, w})
    requires a.entries == {A4} && u.entries == {A1, B3} && w.entries == {B2}
    ensures Onward(s, r) && SameWrites(s, r) && GetAt(r, 1.0, 4) == Some([2])
  {
    AbovePicked(a, u, w);
    KeysAtHand(a, u);
    OnlySnapshot(s, 1, 4);
    hide Leads, Fresh, CompactionPicked, IsSmallest, Enabled, Replace, Two, EntriesOf, GetAt, KeysOf;
    var b;
    r, b := StartWith(s, 2, {a, u}, {1.0}, 4, {A4});
    DropRecord(r, a, u, b);
    DropVersion(a, u, w, b);
    r := Finish(r);
    FoundAfter(r, w, b);
  }

  /** A compaction that has written its one output. */
  lemma StartWith(s: DB, level: nat, inputs: set<Table>, base: set<Key>, smallest: nat, made: set<Entry>) returns (r: DB, b: Table)
    requires Idle(s) && IsSmallest(s, smallest) && CompactionPicked(s.cur.version, level, inputs, base) && base <= KeysOf(inputs)
    ensures Onward(s, r) && SameWrites(s, r) && b.entries == made && r.cur == s.cur && r.mem == s.mem
    ensures r.imm == None && r.writing == None && r.flush == NoFlush && r.calls == 1 && r.scheduled && !r.bgError && !r.broken
    ensures r.job == Some(Job(level, inputs, base, smallest, s.cur.version, [b], false, false))
  {
    hide Leads, Fresh, CompactionPicked, IsSmallest, KeysOf;
    r := Start(s, level, inputs, base, smallest);
    r, b := Output(r, made);
    assert [] + [b] == [b];
  }

  lemma DeletedBefore(s: DB, a: Table, u: Table, w: Table)
    requires Idle(s) && s.mem == {} && s.history == {A1, B2, B3, A4} && s.cur.version == Two({a}, {u, w})
    requires a.entries == {A4} && u.entries == {A1, B3} && w.entries == {B2}
    ensures Read(s.history, 1.0, 4) == None && GetAt(s, 1.0, 4) == None
  {
    TwoContents({a}, {u, w});
    Pair(u, w);
    Alone(a);
    var es := Contents(s.cur.version);
    assert es == {A4, A1, B3, B2};
    hide Contents, EntriesOf, Two, Reached;
    assert Newest(es, 1.0, 4, B3) && Newest(s.history, 1.0, 4, B3);
    ReachedInv(s);
    ReachedTables(s);
    TablesAnswer(s, es, 1.0, 4, B3);
    LatestIs(s.history, 1.0, 4, B3);
  }

  lemma FoundAfter(s: DB, w: Table, b: Table)
    requires Idle(s) && s.mem == {} && s.cur.version == Two({}, {w, b}) && w.entries == {B2} && b.entries == {A4}
    ensures GetAt(s, 1.0, 4) == Some([2])
  {
    TwoContents({}, {w, b});
    Pair(w, b);
    var es := Contents(s.cur.version);
    assert EntriesOf({}) == {} && es == {B2, A4};
    hide Contents, EntriesOf, Two, Reached;
    assert Newest(es, 1.0, 4, B2);
    TablesAnswer(s, es, 1.0, 4, B2);
  }
}
