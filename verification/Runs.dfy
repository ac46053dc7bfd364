/**
 Each level below 0 as a sorted run: its tables do not interleave, which is what
 lets Version::Get open one file of a level. A memtable flushed while a
 compaction is under way may land between what the compaction is going to write;
 the exact condition under which none can is stated on the version at its start.
 */
module Runs {
  import opened Bytes
  import opened Versions
  import opened Compaction
  import opened Levels
  import opened Engine
  import opened EngineProofs
  import Picker

  ghost predicate AllRuns(v: Version) { forall i :: 0 <= i < |v.deep| ==> SortedRun(v.deep[i]) }

  /** All of `u` lies on one side of all of `es`. */
  ghost predicate Aside(u: Table, es: set<Entry>) {
    (forall x, e :: x in u.entries && e in es ==> Before(x, e)) || (forall x, e :: x in u.entries && e in es ==> Before(e, x))
  }

  ghost predicate Reaches(es: set<Entry>, x: Key) {
    (exists e :: e in es && e.key <= x) && (exists e :: e in es && x <= e.key)
  }

  /** A table at or above `level` has the key `x` in its range. */
  ghost predicate Occupied(v: Version, level: nat, x: Key) {
    exists l: nat, u :: l <= level && InLevel(v, l, u) && Reaches(u.entries, x)
  }

  /**
   If a flush can land in the level that a compaction of `level` writes `made`
   to, every key between the first and the last of `made` is in the range of
   some table at or above that level, picked or not.
   */
  ghost predicate Fenced(v: Version, level: nat, made: set<Entry>) {
    level + 1 <= MAX_MEM_COMPACT_LEVEL ==> forall x: Key :: Reaches(made, x) ==> Occupied(v, level + 1, x)
  }

  /** No user key between the picked tables is outside of all of them. */
  ghost predicate Gapless(inputs: set<Table>) {
    forall x: Key :: Reaches(EntriesOf(inputs), x) ==> exists t :: t in inputs && Reaches(t.entries, x)
  }

  // ---------------------------------------------------- one version at a time

  lemma DisjointKeys(a: set<Entry>, b: set<Entry>)
    requires !Overlap(a, b)
    ensures (forall x, y :: x in a && y in b ==> x.key < y.key) || (forall x, y :: x in a && y in b ==> y.key < x.key)
  {
    if x, y :| x in a && y in b && x.key <= y.key {
      forall p, q | p in a && q in b ensures p.key < q.key { assert !(q.key <= p.key); }
    }
  }

  lemma ApartRun(run: set<Table>, t: Table)
    requires SortedRun(run) && forall u :: u in run ==> !Overlap(t.entries, u.entries)
    ensures SortedRun(run + {t})
  {
    forall u | u in run ensures AllBefore(t, u) || AllBefore(u, t) { DisjointKeys(t.entries, u.entries); }
  }

  /** A memtable goes into a gap of the level it is flushed to. */
  lemma FlushRuns(v: Version, level: nat, t: Table)
    requires AllRuns(v) && |v.deep| == DEEP_LEVELS && FlushFits(v, level, t.entries)
    ensures AllRuns(AddTable(v, level, t))
  {
    if level > 0 {
      var run := v.deep[level - 1];
      forall u | u in run ensures !Overlap(t.entries, u.entries) { assert InLevel(v, level, u); }
      ApartRun(run, t);
    }
  }

  /** The next level's tables that are not picked lie aside of those that are. */
  lemma LeftAside(v: Version, level: nat, inputs: set<Table>, base: set<Key>, u: Table)
    requires AllRuns(v) && |v.deep| == DEEP_LEVELS && CompactionPicked(v, level, inputs, base) && u in LeftNext(v, level, inputs)
    ensures Aside(u, EntriesOf(inputs))
  {
    var mine := LevelInputs(v, level, inputs);
    var picked := EntriesOf(mine);
    assert !Overlap(picked, u.entries) && SortedRun(v.deep[level]);
    forall t | t in inputs ensures t in mine || (t in v.deep[level] && Overlap(picked, t.entries)) {
      assert InLevel(v, level, t) || InLevel(v, level + 1, t);
    }
    forall t, e | t in mine && e in t.entries ensures e in picked {}
    hide CompactionPicked, LevelInputs;
    DisjointKeys(picked, u.entries);
    if forall x, y :: x in picked && y in u.entries ==> y.key < x.key {
      forall t | t in inputs ensures AllBefore(u, t) {
        if t !in mine { BesideBefore(picked, u, t); }
      }
    } else {
      forall t | t in inputs ensures AllBefore(t, u) {
        if t !in mine { BesideAfter(picked, u, t); }
      }
    }
  }

  lemma BesideBefore(picked: set<Entry>, u: Table, t: Table)
    requires Overlap(picked, t.entries) && (AllBefore(u, t) || AllBefore(t, u))
    requires forall x, y :: x in picked && y in u.entries ==> y.key < x.key
    ensures AllBefore(u, t)
  {
    var x, y :| x in picked && y in t.entries && x.key <= y.key;
    forall z, w | z in u.entries && w in t.entries ensures Before(z, w) { assert AllBefore(t, u) ==> Before(y, z); }
  }

  lemma BesideAfter(picked: set<Entry>, u: Table, t: Table)
    requires Overlap(picked, t.entries) && (AllBefore(u, t) || AllBefore(t, u))
    requires forall x, y :: x in picked && y in u.entries ==> x.key < y.key
    ensures AllBefore(t, u)
  {
    var x, y :| x in picked && y in t.entries && y.key <= x.key;
    forall z, w | z in u.entries && w in t.entries ensures Before(w, z) { assert AllBefore(u, t) ==> Before(z, y); }
  }

  /** A memtable flushed into the output level of a fenced compaction lies aside of what it writes. */
  lemma FlushedAside(v: Version, level: nat, made: set<Entry>, t: Table)
    requires Fenced(v, level, made) && FlushFits(v, level + 1, t.entries)
    ensures Aside(t, made)
  {
    if !Aside(t, made) {
      var x, e :| x in t.entries && e in made && !Before(x, e);
      var x', e' :| x' in t.entries && e' in made && !Before(e', x');
      var k := if x.key <= e'.key then x.key else e'.key;
      assert Reaches(made, k) && Occupied(v, level + 1, k);
      var l: nat, u :| l <= level + 1 && InLevel(v, l, u) && Reaches(u.entries, k);
      assert Reaches(t.entries, k);
      ReachOverlap(t.entries, u.entries, k);
      assert false;
    }
  }

  lemma ReachOverlap(a: set<Entry>, b: set<Entry>, k: Key)
    requires Reaches(a, k) && Reaches(b, k)
    ensures Overlap(a, b)
  {
  }

  lemma PointOverlap(x: Entry, es: set<Entry>)
    ensures Overlap({x}, es) <==> Reaches(es, x.key)
  {
  }

  /** Otherwise one may land between: a single key that no table at or above the level has in its range. */
  lemma UnfencedTable(v: Version, level: nat, inputs: set<Table>, made: set<Entry>) returns (t: Table)
    requires FromTwoLevels(v, level, inputs) && made <= EntriesOf(inputs) && !Fenced(v, level, made)
    ensures FlushFits(v, level + 1, t.entries) && !Aside(t, made)
  {
    var k :| Reaches(made, k) && !Occupied(v, level + 1, k);
    t := Table(0, {Entry(k, 0, Delete)});
    forall l: nat, u | l <= level + 1 && InLevel(v, l, u) ensures !Overlap(t.entries, u.entries) {
      PointOverlap(Entry(k, 0, Delete), u.entries);
    }
    forall e | e in made ensures e.key != k {
      var u :| u in inputs && e in u.entries;
      assert InLevel(v, level, u) || InLevel(v, level + 1, u);
      assert e.key == k ==> Reaches(u.entries, k);
    }
    var a :| a in made && a.key <= k;
    var b :| b in made && k <= b.key;
    assert Entry(k, 0, Delete) in t.entries && !Before(Entry(k, 0, Delete), a) && !Before(b, Entry(k, 0, Delete));
  }

  /** Every memtable that may be flushed meanwhile lies aside of what is written, if and only if the compaction is fenced. */
  lemma FencedIff(v: Version, level: nat, inputs: set<Table>, made: set<Entry>)
    requires FromTwoLevels(v, level, inputs) && made <= EntriesOf(inputs)
    ensures (forall t: Table :: FlushFits(v, level + 1, t.entries) ==> Aside(t, made)) <==> Fenced(v, level, made)
  {
    hide FlushFits, Fenced, Aside, FromTwoLevels, EntriesOf;
    if Fenced(v, level, made) {
      forall t: Table | FlushFits(v, level + 1, t.entries) ensures Aside(t, made) { FlushedAside(v, level, made, t); }
    } else {
      var t := UnfencedTable(v, level, inputs, made);
    }
  }

  /** Outputs go where the inputs were, if what stays behind lies aside of them. */
  lemma ReplaceRuns(v: Version, level: nat, inputs: set<Table>, outs: seq<Table>)
    requires AllRuns(v) && |v.deep| == DEEP_LEVELS && level < DEEP_LEVELS && SortedRun(set t | t in outs)
    requires forall u :: u in LeftNext(v, level, inputs) ==> Aside(u, EntriesOf(set t | t in outs))
    ensures AllRuns(Replace(v, level, inputs, outs))
  {
    var v', made := Replace(v, level, inputs, outs), set t | t in outs;
    var left := LeftNext(v, level, inputs);
    forall u, o | u in left && o in made ensures AllBefore(u, o) || AllBefore(o, u) { OutputAside(u, made, o); }
    assert SortedRun(v.deep[level]);
    hide Aside, AllBefore, EntriesOf;
    assert v'.deep[level] == left + made;
    assert SortedRun(left + made);
    forall i | 0 <= i < |v'.deep| ensures SortedRun(v'.deep[i]) { assert SortedRun(v.deep[i]) && (i != level ==> v'.deep[i] <= v.deep[i]); }
  }

  lemma OutputAside(u: Table, made: set<Table>, o: Table)
    requires Aside(u, EntriesOf(made)) && o in made
    ensures AllBefore(u, o) || AllBefore(o, u)
  {
    assert forall e :: e in o.entries ==> e in EntriesOf(made);
  }

  // ------------------------------------------ a flush in the middle of a compaction

  ghost function Made(inputs: set<Table>, smallest: nat, base: set<Key>): set<Entry> { Kept(EntriesOf(inputs), smallest, base) }

  /** What the compaction writes, cut into tables in any way. */
  ghost predicate Outputs(outs: seq<Table>, made: set<Entry>) {
    SortedRun(set t | t in outs) && EntriesOf(set t | t in outs) == made
  }

  lemma SafeAfter(v: Version, level: nat, inputs: set<Table>, base: set<Key>, made: set<Entry>, t: Table, outs: seq<Table>)
    requires AllRuns(v) && |v.deep| == DEEP_LEVELS && CompactionPicked(v, level, inputs, base) && made <= EntriesOf(inputs)
    requires Fenced(v, level, made) && FlushFits(v, level + 1, t.entries) && Outputs(outs, made)
    ensures AllRuns(Replace(AddTable(v, level + 1, t), level, inputs, outs))
  {
    var v' := AddTable(v, level + 1, t);
    assert level < DEEP_LEVELS && LeftNext(v', level, inputs) <= LeftNext(v, level, inputs) + {t};
    hide AllRuns, CompactionPicked, Fenced, FlushFits, LeftNext, AddTable, Overlap, SortedRun;
    FlushRuns(v, level + 1, t);
    AddTableLevels(v, level + 1, t);
    FlushedAside(v, level, made, t);
    forall u | u in LeftNext(v, level, inputs) ensures Aside(u, made) { LeftAside(v, level, inputs, base, u); }
    hide Aside;
    ReplaceRuns(v', level, inputs, outs);
  }

  lemma AddTableLevels(v: Version, level: nat, t: Table)
    ensures |AddTable(v, level, t).deep| == |v.deep|
  {
  }

  lemma BrokenAfter(v: Version, level: nat, inputs: set<Table>, made: set<Entry>) returns (t: Table, outs: seq<Table>)
    requires |v.deep| == DEEP_LEVELS && level < DEEP_LEVELS
    requires FromTwoLevels(v, level, inputs) && made <= EntriesOf(inputs) && !Fenced(v, level, made)
    ensures FlushFits(v, level + 1, t.entries) && Outputs(outs, made)
    ensures !AllRuns(Replace(AddTable(v, level + 1, t), level, inputs, outs))
  {
    t := UnfencedTable(v, level, inputs, made);
    var out := Table(0, made);
    outs := [out];
    assert (set o | o in outs) == {out} && EntriesOf({out}) == made;
    assert t !in inputs && t != out by { FlushedApart(v, level, inputs, made, t); }
    hide Fenced, FromTwoLevels, FlushFits, EntriesOf;
    BetweenBreaks(v, level, inputs, t, out);
  }

  /** A table that fits into the output level and lies between the entries written is none of the tables at hand. */
  lemma FlushedApart(v: Version, level: nat, inputs: set<Table>, made: set<Entry>, t: Table)
    requires FromTwoLevels(v, level, inputs) && made <= EntriesOf(inputs)
    requires FlushFits(v, level + 1, t.entries) && !Aside(t, made)
    ensures t !in inputs && t.entries != made
  {
    var x :| x in t.entries;
    if t in inputs {
      assert InLevel(v, level, t) || InLevel(v, level + 1, t);
      assert Overlap(t.entries, t.entries);
      assert false;
    }
    if t.entries == made {
      assert false;
    }
  }

  lemma BetweenBreaks(v: Version, level: nat, inputs: set<Table>, t: Table, out: Table)
    requires |v.deep| == DEEP_LEVELS && level < DEEP_LEVELS && t !in inputs && t != out && !Aside(t, out.entries)
    ensures !AllRuns(Replace(AddTable(v, level + 1, t), level, inputs, [out]))
  {
    var after := Replace(AddTable(v, level + 1, t), level, inputs, [out]);
    assert t in after.deep[level] && out in after.deep[level];
    assert !AllBefore(t, out) && !AllBefore(out, t);
    assert !SortedRun(after.deep[level]);
  }

  /**
   Whatever is flushed into its output level meanwhile and however its output
   is cut into files, a compaction leaves sorted runs, if and only if it is
   fenced when it starts.
   */
  lemma SortedRunsIff(v: Version, level: nat, inputs: set<Table>, base: set<Key>, smallest: nat)
    requires AllRuns(v) && |v.deep| == DEEP_LEVELS && CompactionPicked(v, level, inputs, base)
    ensures (forall t: Table, outs :: FlushFits(v, level + 1, t.entries) && Outputs(outs, Made(inputs, smallest, base)) ==>
               AllRuns(Replace(AddTable(v, level + 1, t), level, inputs, outs)))
            <==> Fenced(v, level, Made(inputs, smallest, base))
  {
    var made := Made(inputs, smallest, base);
    assert level < DEEP_LEVELS && FromTwoLevels(v, level, inputs);
    assert made <= EntriesOf(inputs);
    hide *;
    if Fenced(v, level, made) {
      forall t: Table, outs | FlushFits(v, level + 1, t.entries) && Outputs(outs, made)
        ensures AllRuns(Replace(AddTable(v, level + 1, t), level, inputs, outs))
      {
        SafeAfter(v, level, inputs, base, made, t, outs);
      }
    } else {
      var t, outs := BrokenAfter(v, level, inputs, made);
    }
  }

  /** Picks without gaps are fenced. */
  lemma GaplessFenced(v: Version, level: nat, inputs: set<Table>, made: set<Entry>)
    requires FromTwoLevels(v, level, inputs) && made <= EntriesOf(inputs) && Gapless(inputs)
    ensures Fenced(v, level, made)
  {
    forall x: Key | Reaches(made, x) ensures Occupied(v, level + 1, x) {
      assert Reaches(EntriesOf(inputs), x);
      var t :| t in inputs && Reaches(t.entries, x);
      assert InLevel(v, level, t) || InLevel(v, level + 1, t);
    }
  }

  // ------------------------------------------------------------- whole runs

  /** The tables left behind lie aside of what the running compaction writes, and stay so. */
  ghost predicate JobAside(v: Version, j: Job) {
    var made := Made(j.inputs, j.smallest, j.base);
    Fenced(v, j.level, made) && forall u :: u in LeftNext(v, j.level, j.inputs) ==> Aside(u, made)
  }

  ghost predicate RunsOk(s: DB) {
    && AllRuns(s.cur.version) && AllRuns(s.disk.version)
    && (s.job.Some? && !s.job.value.recorded ==> JobAside(s.cur.version, s.job.value))
  }

  lemma InvLevels(s: DB)
    requires Inv(s)
    ensures |s.cur.version.deep| == DEEP_LEVELS && |s.disk.version.deep| == DEEP_LEVELS
    ensures s.job.Some? ==> s.job.value.level < DEEP_LEVELS && FromTwoLevels(s.cur.version, s.job.value.level, s.job.value.inputs)
    ensures s.flush.Recorded? ==>
              && FlushFits(s.cur.version, s.flush.level, s.flush.table.entries)
              && s.disk.version == if s.flush.table.entries == {} then s.cur.version else AddTable(s.cur.version, s.flush.level, s.flush.table)
  {
    hide NumbersOk, MemFits, LogsOk, RecordsOk, FilesOk, BackgroundOk, PinsOk, HistoryOk, FlushFits;
  }

  lemma FlushRecordRuns(s: DB, level: nat)
    requires Inv(s) && RunsOk(s) && Enabled(s, FlushRecord(level))
    ensures AllRuns(FlushedManifest(s, s.flush.table, level).version)
  {
    InvLevels(s);
    hide Inv, AllRuns;
    FlushRuns(s.cur.version, level, s.flush.table);
  }

  /** A flush in the middle of a compaction keeps out of its way. */
  lemma FlushJobAside(v: Version, flushLevel: nat, t: Table, j: Job)
    requires |v.deep| == DEEP_LEVELS && j.level < DEEP_LEVELS && FlushFits(v, flushLevel, t.entries)
    requires FromTwoLevels(v, j.level, j.inputs) && JobAside(v, j)
    ensures JobAside(AddTable(v, flushLevel, t), j)
  {
    var v', made := AddTable(v, flushLevel, t), Made(j.inputs, j.smallest, j.base);
    FencedStays(v, flushLevel, t, j.level, made);
    forall u | u in LeftNext(v', j.level, j.inputs) ensures Aside(u, made) {
      if u !in LeftNext(v, j.level, j.inputs) {
        assert u == t && flushLevel == j.level + 1;
        FlushedAside(v, j.level, made, t);
      }
    }
  }

  /** More tables leave less room. */
  lemma FencedStays(v: Version, flushLevel: nat, t: Table, level: nat, made: set<Entry>)
    requires |v.deep| == DEEP_LEVELS && flushLevel <= MAX_MEM_COMPACT_LEVEL && Fenced(v, level, made)
    ensures Fenced(AddTable(v, flushLevel, t), level, made)
  {
    var v' := AddTable(v, flushLevel, t);
    hide Reaches;
    if level + 1 <= MAX_MEM_COMPACT_LEVEL {
      forall x: Key | Reaches(made, x) ensures Occupied(v', level + 1, x) {
        assert Occupied(v, level + 1, x);
        var l: nat, u :| l <= level + 1 && InLevel(v, l, u) && Reaches(u.entries, x);
        AddTableLevel(v, flushLevel, t, l, u);
      }
    }
  }

  lemma FlushInstallRuns(s: DB)
    requires Inv(s) && RunsOk(s) && Enabled(s, FlushInstall)
    ensures RunsOk(Apply(s, FlushInstall))
  {
    InvLevels(s);
    assert s.flush.Recorded?;
    AppliedInstall(s);
    DeleteKeeps(Installed(s));
    hide Inv, Enabled, Apply, AllRuns, JobAside, DeleteObsolete, FlushFits, FromTwoLevels, AddTable;
    if s.job.Some? && !s.job.value.recorded && s.flush.table.entries != {} {
      FlushJobAside(s.cur.version, s.flush.level, s.flush.table, s.job.value);
    }
  }

  lemma DeleteKeeps(s: DB)
    ensures DeleteObsolete(s).job == s.job && DeleteObsolete(s).cur == s.cur && DeleteObsolete(s).disk == s.disk
  {
  }

  lemma StartedRuns(v: Version, j: Job)
    requires AllRuns(v) && |v.deep| == DEEP_LEVELS && CompactionPicked(v, j.level, j.inputs, j.base)
    requires Fenced(v, j.level, Made(j.inputs, j.smallest, j.base))
    ensures JobAside(v, j)
  {
    var made := Made(j.inputs, j.smallest, j.base);
    assert made <= EntriesOf(j.inputs);
    hide CompactionPicked, AllRuns, Fenced, EntriesOf, LeftNext, Made;
    forall u | u in LeftNext(v, j.level, j.inputs) ensures Aside(u, made) { LeftAside(v, j.level, j.inputs, j.base, u); }
  }

  lemma CompactStartRuns(s: DB, level: nat, inputs: set<Table>, base: set<Key>, smallest: nat)
    requires Inv(s) && RunsOk(s) && Enabled(s, CompactStart(level, inputs, base, smallest))
    requires Fenced(s.cur.version, level, Made(inputs, smallest, base))
    ensures RunsOk(Apply(s, CompactStart(level, inputs, base, smallest)))
  {
    InvLevels(s);
    StartGuard(s, level, inputs, base, smallest);
    hide *;
    StartedRuns(s.cur.version, Apply(s, CompactStart(level, inputs, base, smallest)).job.value);
    StartedOk(s, level, inputs, base, smallest);
  }

  lemma StartGuard(s: DB, level: nat, inputs: set<Table>, base: set<Key>, smallest: nat)
    requires RunsOk(s) && Enabled(s, CompactStart(level, inputs, base, smallest))
    ensures AllRuns(s.cur.version) && CompactionPicked(s.cur.version, level, inputs, base)
    ensures Apply(s, CompactStart(level, inputs, base, smallest)) ==
            s.(job := Some(Job(level, inputs, base, smallest, s.cur.version, [], false, false)))
  {
    hide IsSmallest, CompactionPicked, AllRuns, JobAside;
  }

  lemma StartedOk(s: DB, level: nat, inputs: set<Table>, base: set<Key>, smallest: nat)
    requires RunsOk(s) && Enabled(s, CompactStart(level, inputs, base, smallest))
    requires Apply(s, CompactStart(level, inputs, base, smallest)).job.Some?
    requires JobAside(s.cur.version, Apply(s, CompactStart(level, inputs, base, smallest)).job.value)
    ensures RunsOk(Apply(s, CompactStart(level, inputs, base, smallest)))
  {
    hide IsSmallest, CompactionPicked, AllRuns, JobAside;
  }

  lemma CompactRecordRuns(s: DB)
    requires Inv(s) && RunsOk(s) && Enabled(s, CompactRecord)
    ensures AllRuns(CompactedManifest(s, s.job.value).version)
  {
    InvLevels(s);
    var j := s.job.value;
    assert EntriesOf(set t | t in j.outputs) == Made(j.inputs, j.smallest, j.base);
    hide Inv, AllRuns, Aside, Fenced, Kept, EntriesOf, SortedRun, Replace, LeftNext, Made;
    ReplaceRuns(s.cur.version, j.level, j.inputs, j.outputs);
  }

  lemma MoveRecordRuns(s: DB, level: nat, table: Table)
    requires Inv(s) && RunsOk(s) && Enabled(s, MoveRecord(level, table))
    ensures AllRuns(Replace(s.cur.version, level, {table}, [table]))
  {
    InvLevels(s);
    hide Inv, AllRuns, CompactionPicked;
    MovedRuns(s.cur.version, level, table);
  }

  lemma MovedRuns(v: Version, level: nat, table: Table)
    requires AllRuns(v) && |v.deep| == DEEP_LEVELS && CompactionPicked(v, level, {table}, {})
    ensures AllRuns(Replace(v, level, {table}, [table]))
  {
    assert level < DEEP_LEVELS;
    hide CompactionPicked, AllRuns, Aside, Replace;
    assert (set t | t in [table]) == {table};
    forall u | u in LeftNext(v, level, {table}) ensures Aside(u, EntriesOf(set t | t in [table])) { LeftAside(v, level, {table}, {}, u); }
    hide LeftNext;
    ReplaceRuns(v, level, {table}, [table]);
  }

  lemma CrashRuns(s: DB, r: Restart)
    requires RunsOk(s)
    ensures RunsOk(DeleteObsolete(Reopened(s, r)))
  {
    DeleteKeeps(Reopened(s, r));
    hide DeleteObsolete, SortedRun, WithTables;
  }

  lemma QuietRuns(s: DB, step: Step)
    requires RunsOk(s) && Enabled(s, step)
    requires !step.FlushRecord? && !step.FlushInstall? && !step.CompactStart? && !step.CompactRecord? && !step.MoveRecord? && !step.Crash?
    ensures RunsOk(Apply(s, step))
  {
    hide AllRuns, Fenced, Aside, LeftNext, Made;
  }

  lemma RecordedRuns(s: DB, step: Step)
    requires RunsOk(s) && Enabled(s, step) && (step.FlushRecord? || step.CompactRecord? || step.MoveRecord?)
    requires step.FlushRecord? ==> AllRuns(FlushedManifest(s, s.flush.table, step.level).version)
    requires step.CompactRecord? ==> AllRuns(CompactedManifest(s, s.job.value).version)
    requires step.MoveRecord? ==> AllRuns(Replace(s.cur.version, step.level, {step.table}, [step.table]))
    ensures RunsOk(Apply(s, step))
  {
    hide AllRuns, JobAside, Replace, CompactionPicked, FlushFits, Kept, EntriesOf;
  }

  /** Every step keeps the levels sorted runs, if compactions start fenced. */
  lemma StepRuns(s: DB, step: Step)
    requires Inv(s) && RunsOk(s) && Enabled(s, step)
    requires step.CompactStart? ==> Fenced(s.cur.version, step.level, Made(step.inputs, step.smallest, step.base))
    ensures RunsOk(Apply(s, step))
  {
    hide *;
    match step {
      case FlushRecord(level) => { FlushRecordRuns(s, level); RecordedRuns(s, step); }
      case FlushInstall => FlushInstallRuns(s);
      case CompactStart(level, inputs, base, smallest) => CompactStartRuns(s, level, inputs, base, smallest);
      case CompactRecord => { CompactRecordRuns(s); RecordedRuns(s, step); }
      case MoveRecord(level, table) => { MoveRecordRuns(s, level, table); RecordedRuns(s, step); }
      case Crash(r) => { CrashRuns(s, r); AppliedCrash(s, r); }
      case _ => QuietRuns(s, step);
    }
  }

  /** The compactions started among the first `n` steps are fenced. */
  ghost predicate AllFenced(run: seq<DB>, steps: seq<Step>, n: nat)
    requires n <= |steps| < |run|
  {
    forall i :: 0 <= i < n && steps[i].CompactStart? ==>
      Fenced(run[i].cur.version, steps[i].level, Made(steps[i].inputs, steps[i].smallest, steps[i].base))
  }

  lemma FreshRuns()
    ensures RunsOk(Fresh())
  {
    var v := Fresh().cur.version;
    forall i | 0 <= i < |v.deep| ensures v.deep[i] == {} {}
  }

  /** In every state of such a run the levels are sorted runs. */
  lemma {:induction false} RunRuns(run: seq<DB>, steps: seq<Step>, i: nat)
    requires IsRun(run, steps) && run[0] == Fresh() && i < |run| && AllFenced(run, steps, i)
    ensures RunsOk(run[i])
  {
    hide Inv, Enabled, Apply, Fresh, RunsOk, Fenced, Made;
    if i == 0 { FreshRuns(); } else {
      RunRuns(run, steps, i - 1);
      RunInv(run, steps, i - 1);
      assert run[i - 1 + 1] == Apply(run[i - 1], steps[i - 1]);
      StepRuns(run[i - 1], steps[i - 1]);
    }
  }

  /** No compaction started among the first `n` steps leaves behind a table that starts where its picks of that level end. */
  ghost predicate AllBounded(run: seq<DB>, steps: seq<Step>, n: nat)
    requires n <= |steps| < |run|
  {
    forall i :: 0 <= i < n && steps[i].CompactStart? ==>
      steps[i].level < |run[i].cur.version.deep| && NoBoundaryLeft(run[i].cur.version, steps[i].level, steps[i].inputs)
  }

  /**
   Reads are right in every run in which no pick leaves a boundary file of the
   next level behind: what a caller can see of the files before each compaction.
   */
  lemma BoundedReads(run: seq<DB>, steps: seq<Step>, i: nat, k: Key, t: nat)
    requires IsRun(run, steps) && run[0] == Fresh() && i < |run| && Readable(run[i], t)
    requires AllFenced(run, steps, i) && AllBounded(run, steps, i)
    ensures GetAt(run[i], k, t) == Read(run[i].history, k, t)
  {
    forall n | 0 <= n < i && steps[n].CompactStart?
      ensures Covers(run[n].cur.version, steps[n].level, steps[n].inputs, steps[n].base, steps[n].smallest)
    {
      StartCovers(run, steps, n);
    }
    hide *;
    StartCovered(run, steps, i);
    GetReadsHistory(run, steps, i, k, t);
  }

  lemma StartCovers(run: seq<DB>, steps: seq<Step>, n: nat)
    requires IsRun(run, steps) && run[0] == Fresh() && n < |steps| && steps[n].CompactStart?
    requires AllFenced(run, steps, n) && AllBounded(run, steps, n + 1)
    ensures Covers(run[n].cur.version, steps[n].level, steps[n].inputs, steps[n].base, steps[n].smallest)
  {
    RunRuns(run, steps, n);
    RunInv(run, steps, n);
    var s, v := run[n], run[n].cur.version;
    assert CompactionPicked(v, steps[n].level, steps[n].inputs, steps[n].base);
    assert AllRuns(v) && LevelsOrdered(v);
    hide Inv, Enabled, Apply, Fresh, Covers, Fenced, SortedRun, NoBoundaryLeft, CompactionPicked, LevelsOrdered;
    BoundaryCovers(v, steps[n].level, steps[n].inputs, steps[n].base, steps[n].smallest);
  }

  /** The picks of PickCompaction leave no gap. */
  lemma JoinedGapless(inputs0: seq<Picker.File>, inputs1: seq<Picker.File>, lo: Key, hi: Key)
    requires Picker.AllBounds(inputs0) && Picker.AllBounds(inputs1) && Picker.Joined(inputs0 + inputs1, lo, hi)
    ensures Gapless(Picker.Picked(inputs0, inputs1))
  {
    var both, inputs := inputs0 + inputs1, Picker.Picked(inputs0, inputs1);
    forall t | t in inputs ensures exists f :: f in both && f.table == t {
      if f :| f in inputs0 && f.table == t { assert f in both; }
      if f :| f in inputs1 && f.table == t { assert f in both; }
    }
    forall e | e in EntriesOf(inputs) ensures lo <= e.key <= hi {
      var t :| t in inputs && e in t.entries;
      var f :| f in both && f.table == t;
      assert Picker.Bounds(f);
      Picker.EntryHeld(f, e);
    }
    forall x: Key | Reaches(EntriesOf(inputs), x) ensures exists t :: t in inputs && Reaches(t.entries, x) {
      assert Picker.SomeHolds(both, x);
      var f :| f in both && Picker.Holds(f, x);
      assert Picker.Bounds(f) && f.table in inputs;
      assert f.smallest.key <= x <= f.largest.key;
      assert Reaches(f.table.entries, x);
    }
  }

  /** So a compaction made from them is fenced, whatever it drops. */
  lemma PickedFenced(v: Version, level: nat, inputs0: seq<Picker.File>, inputs1: seq<Picker.File>, lo: Key, hi: Key,
                     smallest: nat, base: set<Key>)
    requires Picker.AllBounds(inputs0) && Picker.AllBounds(inputs1) && Picker.Joined(inputs0 + inputs1, lo, hi)
    requires FromTwoLevels(v, level, Picker.Picked(inputs0, inputs1))
    ensures Fenced(v, level, Made(Picker.Picked(inputs0, inputs1), smallest, base))
  {
    var inputs := Picker.Picked(inputs0, inputs1);
    assert Made(inputs, smallest, base) <= EntriesOf(inputs);
    hide *;
    JoinedGapless(inputs0, inputs1, lo, hi);
    GaplessFenced(v, level, inputs, Made(inputs, smallest, base));
  }

  /**
   A pick with a gap, as CompactRange makes them, breaks a run: a memtable
   flushed meanwhile may go into the gap, in the level the compaction writes to,
   and then lies within one of its output tables.
   */
  lemma GapInterleaves(x: Table, y: Table, t: Table, v: Version, out: Table)
    requires x == Table(1, {Entry(0.0, 1, Delete)}) && y == Table(2, {Entry(5.0, 2, Delete)}) && t == Table(3, {Entry(3.0, 3, Delete)})
    requires v == Version([], [{x, y}, {}, {}, {}, {}, {}]) && out.entries == x.entries + y.entries
    ensures AllRuns(v) && CompactionPicked(v, 1, {x, y}, {}) && FlushFits(v, 2, t.entries)
    ensures EntriesOf(set o | o in [out]) == EntriesOf({x, y})
    ensures !AllRuns(Replace(AddTable(v, 2, t), 1, {x, y}, [out]))
  {
    GapPicked(x, y, v);
    GapFlush(x, y, t, v);
    GapAfter(x, y, t, v, out);
    hide *;
  }

  lemma GapFlush(x: Table, y: Table, t: Table, v: Version)
    requires x == Table(1, {Entry(0.0, 1, Delete)}) && y == Table(2, {Entry(5.0, 2, Delete)}) && t == Table(3, {Entry(3.0, 3, Delete)})
    requires v == Version([], [{x, y}, {}, {}, {}, {}, {}])
    ensures AllRuns(v) && FlushFits(v, 2, t.entries)
  {
    assert v.deep[0] == {x, y} && v.deep[1] == {};
    assert !Overlap(t.entries, x.entries) && !Overlap(t.entries, y.entries);
    assert AllRuns(v) by { assert AllBefore(x, y); }
  }

  lemma GapAfter(x: Table, y: Table, t: Table, v: Version, out: Table)
    requires x == Table(1, {Entry(0.0, 1, Delete)}) && y == Table(2, {Entry(5.0, 2, Delete)}) && t == Table(3, {Entry(3.0, 3, Delete)})
    requires v == Version([], [{x, y}, {}, {}, {}, {}, {}]) && out.entries == x.entries + y.entries
    ensures EntriesOf(set o | o in [out]) == EntriesOf({x, y})
    ensures !AllRuns(Replace(AddTable(v, 2, t), 1, {x, y}, [out]))
  {
    assert (set o | o in [out]) == {out} && EntriesOf({out}) == out.entries && EntriesOf({x, y}) == x.entries + y.entries;
    hide EntriesOf;
    var w := AddTable(v, 2, t);
    assert w.deep[1] == {t} && |w.deep| == 6;
    var after := Replace(w, 1, {x, y}, [out]);
    assert after.deep[1] == {t} - {x, y} + {out};
    assert t in after.deep[1] && out in after.deep[1] && t != out;
    hide Replace, AddTable;
    var a, b, m := Entry(0.0, 1, Delete), Entry(5.0, 2, Delete), Entry(3.0, 3, Delete);
    assert a in out.entries && b in out.entries && m in t.entries;
    assert !AllBefore(t, out) && !AllBefore(out, t);
    assert !SortedRun(after.deep[1]);
  }

  lemma GapPicked(x: Table, y: Table, v: Version)
    requires x == Table(1, {Entry(0.0, 1, Delete)}) && y == Table(2, {Entry(5.0, 2, Delete)})
    requires v == Version([], [{x, y}, {}, {}, {}, {}, {}])
    ensures CompactionPicked(v, 1, {x, y}, {})
  {
    assert v.deep[0] == {x, y} && v.deep[1] == {};
    assert forall u :: InLevel(v, 1, u) <==> u in {x, y};
    hide EntriesOf, LevelInputs, Overlap;
  }
}
