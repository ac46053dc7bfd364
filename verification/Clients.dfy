/**
 What a client sees of the engine: a map from keys to values that each
 committed write updates and nothing else changes, snapshots and readers that
 keep the map of the moment they were taken.
 */
module Clients {
  import opened Bytes
  import opened Versions
  import opened Compaction
  import opened Levels
  import opened Logs
  import opened Engine
  import opened EngineProofs

  /** Get without a snapshot. */
  ghost function Shown(s: DB, k: Key): Option<Bytes> { GetAt(s, k, s.lastSeq) }

  /** What a batch of updates makes of the value of `k`: its last update of `k` counts. */
  function Effect(ops: seq<(Key, Op)>, k: Key, was: Option<Bytes>): Option<Bytes> {
    if ops == [] then was
    else
      var last := ops[|ops| - 1];
      if last.0 != k then Effect(ops[..|ops| - 1], k, was)
      else match last.1 case Put(v) => Some(v) case Delete => None
  }

  // ------------------------------------------------------ a batch in the history

  lemma StampSnoc(ops: seq<(Key, Op)>, from: nat)
    requires ops != []
    ensures var n := |ops| - 1; Stamp(ops, from) == Stamp(ops[..n], from) + {Entry(ops[n].0, from + 1 + n, ops[n].1)}
  {
    var n := |ops| - 1;
    var e := Entry(ops[n].0, from + 1 + n, ops[n].1);
    forall x ensures x in Stamp(ops, from) <==> x in Stamp(ops[..n], from) + {e} {
      if i :| 0 <= i < |ops| && x == Entry(ops[i].0, from + 1 + i, ops[i].1) {
        if i < n { assert ops[..n][i] == ops[i]; }
      }
      if i :| 0 <= i < n && x == Entry(ops[..n][i].0, from + 1 + i, ops[..n][i].1) { assert ops[..n][i] == ops[i]; }
    }
  }

  /** The history with a batch added. */
  ghost function With(h: set<Entry>, ops: seq<(Key, Op)>, from: nat): set<Entry> { h + Stamp(ops, from) }

  /** Reading past a batch that was added to the history. */
  lemma {:induction false} BatchRead(h: set<Entry>, ops: seq<(Key, Op)>, from: nat, k: Key)
    requires UniqueSeq(With(h, ops, from)) && forall e :: e in h ==> e.seqno <= from
    ensures Read(With(h, ops, from), k, from + |ops|) == Effect(ops, k, Read(h, k, from))
  {
    hide *;
    if ops == [] {
      NothingAdded(h, from, k);
    } else {
      EffectLast(ops, k, Read(h, k, from));
      LastRead(h, ops, from, k);
      BatchRead(h, ops[..|ops| - 1], from, k);
    }
  }

  lemma NothingAdded(h: set<Entry>, from: nat, k: Key)
    ensures With(h, [], from) == h && Effect([], k, Read(h, k, from)) == Read(h, k, from)
  {
  }

  lemma EffectLast(ops: seq<(Key, Op)>, k: Key, was: Option<Bytes>)
    requires ops != []
    ensures var n := |ops| - 1;
            Effect(ops, k, was) == if ops[n].0 != k then Effect(ops[..n], k, was) else if ops[n].1.Put? then Some(ops[n].1.value) else None
  {
  }

  lemma LastRead(h: set<Entry>, ops: seq<(Key, Op)>, from: nat, k: Key)
    requires ops != [] && UniqueSeq(With(h, ops, from)) && forall e :: e in h ==> e.seqno <= from
    ensures UniqueSeq(With(h, ops[..|ops| - 1], from))
    ensures var n := |ops| - 1;
            Read(With(h, ops, from), k, from + |ops|) ==
            if ops[n].0 != k then Read(With(h, ops[..n], from), k, from + n) else if ops[n].1.Put? then Some(ops[n].1.value) else None
  {
    var n := |ops| - 1;
    BatchSplit(h, ops, from);
    hide Stamp, Read, UniqueSeq;
    OneMore(With(h, ops[..n], from), Entry(ops[n].0, from + 1 + n, ops[n].1), k, from + n);
  }

  lemma BatchSplit(h: set<Entry>, ops: seq<(Key, Op)>, from: nat)
    requires ops != [] && UniqueSeq(With(h, ops, from)) && forall e :: e in h ==> e.seqno <= from
    ensures var n := |ops| - 1;
            var shorter := With(h, ops[..n], from);
            && With(h, ops, from) == shorter + {Entry(ops[n].0, from + 1 + n, ops[n].1)}
            && UniqueSeq(shorter) && (forall e :: e in shorter ==> e.seqno <= from + n)
  {
    StampSnoc(ops, from);
    StampRange(ops[..|ops| - 1], from);
    hide Stamp;
  }

  /** One entry more, newer than all there are. */
  lemma OneMore(h: set<Entry>, e: Entry, k: Key, t: nat)
    requires UniqueSeq(h + {e}) && e.seqno == t + 1 && forall x :: x in h ==> x.seqno <= t
    ensures Read(h + {e}, k, t + 1) == if e.key != k then Read(h, k, t) else if e.op.Put? then Some(e.op.value) else None
  {
    if e.key == k {
      assert Newest(h + {e}, k, t + 1, e);
      ReadNewest(h + {e}, k, t + 1, e);
    } else {
      SameVisible(h + {e}, h, k, t + 1);
      LaterSame(h, k, t, t + 1);
    }
  }

  /** Beyond the last entry all sequences read the same. */
  lemma LaterSame(h: set<Entry>, k: Key, t: nat, t': nat)
    requires UniqueSeq(h) && t <= t' && forall e :: e in h ==> e.seqno <= t
    ensures Read(h, k, t') == Read(h, k, t)
  {
    LatestNone(h, k, t);
    LatestNone(h, k, t');
    if Visible(h, k, t) {
      NewestExists(h, k, t);
      var e :| Newest(h, k, t, e);
      assert Newest(h, k, t', e);
      LatestIs(h, k, t, e);
      LatestIs(h, k, t', e);
    }
  }

  // ------------------------------------------------------------- single steps

  /** What Get returns is what the history says. */
  lemma ShownIs(s: DB, k: Key)
    requires Inv(s) && ReadsOk(s)
    ensures Shown(s, k) == Read(s.history, k, s.lastSeq)
  {
    hide Inv, ReadsOk, GetAt;
    InvReads(s, k, s.lastSeq);
  }

  lemma SameLast(s: DB, step: Step)
    requires Enabled(s, step) && !step.WriteCommit? && !step.Crash?
    ensures Apply(s, step).lastSeq == s.lastSeq
  {
    hide UpTo, CompactionPicked, FlushFits, FlushedManifest, CompactedManifest, Stamp, IsSmallest, Restarts, Reopened;
  }

  /** Nothing but the end of a write changes what Get returns, if compactions cover. */
  lemma OthersShowNothing(s: DB, step: Step, k: Key)
    requires Inv(s) && ReadsOk(s) && Enabled(s, step) && (step.CompactRecord? ==> JobCovers(s))
    requires !step.WriteCommit? && !step.Crash?
    ensures Shown(Apply(s, step), k) == Shown(s, k)
  {
    hide Inv, ReadsOk, Enabled, Apply, Shown, Read, JobCovers;
    StepInv(s, step);
    StepReads(s, step);
    StepHistory(s, step);
    SameLast(s, step);
    HistoryOf(Apply(s, step));
    ShownIs(s, k);
    ShownIs(Apply(s, step), k);
    NewerWritesUnseen(s.history, Apply(s, step).history, k, s.lastSeq);
  }

  lemma HistoryOf(s: DB)
    requires Inv(s)
    ensures UniqueSeq(s.history) && forall e :: e in s.history ==> e.seqno <= s.topSeq
    ensures s.writing == None ==> s.topSeq == s.lastSeq
    ensures forall e :: e in s.acked ==> e in s.history && e.seqno <= s.lastSeq
  {
    HistoryUnique(s);
    hide LogsOk, RecordsOk, MemFits, FilesOk, PinsOk, BackgroundOk, TablesOk, JobOk, FlushOk, UniqueSeq;
  }

  // ------------------------------------------------------------------- writes

  /** Between the step that logs a group and the end of its write. */
  ghost predicate During(steps: seq<Step>, i: nat, j: nat) {
    i < j < |steps| && steps[j].WriteCommit? && forall m :: i < m < j ==> !steps[m].WriteCommit? && !steps[m].Crash?
  }

  /** Whatever else happens meanwhile, a write stays the one under way. */
  lemma WriteGoesOn(s: DB, step: Step)
    requires Enabled(s, step) && s.writing.Some? && !step.WriteCommit? && !step.Crash?
    ensures var s' := Apply(s, step);
            && s'.writing == s.writing && s'.history == s.history && s'.lastSeq == s.lastSeq && s'.topSeq == s.topSeq
            && s'.acked == s.acked && s'.safe == s.safe
  {
    hide UpTo, CompactionPicked, FlushFits, FlushedManifest, CompactedManifest, Stamp, IsSmallest, Restarts, Reopened;
  }

  lemma WriteBegins(s: DB, ops: seq<(Key, Op)>, fate: Fate, sync: bool)
    requires Enabled(s, WriteStart(ops, fate, sync))
    ensures var s', es := Apply(s, WriteStart(ops, fate, sync)), Stamp(ops, s.lastSeq);
            && s'.writing == Some(Writing(es, fate, sync)) && s'.lastSeq == s.lastSeq && s'.topSeq == s.lastSeq + |ops|
            && s'.history == (if fate.Logged? then s.history + es else s.history)
            && s'.acked == s.acked && s'.safe == s.safe
  {
    hide Stamp;
  }

  lemma {:induction false} WriteUnderWay(run: seq<DB>, steps: seq<Step>, i: nat, m: nat)
    requires IsRun(run, steps) && i < m <= |steps| && steps[i].WriteStart?
    requires forall n :: i < n < m ==> !steps[n].WriteCommit? && !steps[n].Crash?
    ensures var s, t, ops, es := run[i], run[m], steps[i].ops, Stamp(steps[i].ops, run[i].lastSeq);
            && t.writing == Some(Writing(es, steps[i].fate, steps[i].sync)) && t.lastSeq == s.lastSeq && t.topSeq == s.lastSeq + |ops|
            && t.history == (if steps[i].fate.Logged? then s.history + es else s.history)
            && t.acked == s.acked && t.safe == s.safe
    decreases m - i
  {
    hide Enabled, Apply, Stamp;
    assert Enabled(run[m - 1], steps[m - 1]) && run[m - 1 + 1] == Apply(run[m - 1], steps[m - 1]);
    if m == i + 1 {
      WriteBegins(run[i], steps[i].ops, steps[i].fate, steps[i].sync);
    } else {
      WriteUnderWay(run, steps, i, m - 1);
      WriteGoesOn(run[m - 1], steps[m - 1]);
    }
  }

  lemma WriteEnds(s: DB)
    requires Enabled(s, WriteCommit)
    ensures s.writing.Some?
    ensures var s', w := Apply(s, WriteCommit), s.writing.value;
            && s'.history == s.history && s'.lastSeq == s.topSeq
            && (w.fate.Logged? ==> w.entries <= s'.acked && (w.sync ==> w.entries <= s'.safe))
  {
  }

  /** The history and the last sequence when a write has ended. */
  lemma Written(run: seq<DB>, steps: seq<Step>, i: nat, j: nat)
    requires IsRun(run, steps) && run[0] == Fresh() && During(steps, i, j) && steps[i].WriteStart?
    ensures var s, t, ops, es := run[i], run[j + 1], steps[i].ops, Stamp(steps[i].ops, run[i].lastSeq);
            && Inv(s) && Inv(t) && s.lastSeq == s.topSeq && t.lastSeq == s.lastSeq + |ops|
            && t.history == (if steps[i].fate.Logged? then s.history + es else s.history)
            && (steps[i].fate.Logged? ==> es <= t.acked && (steps[i].sync ==> es <= t.safe))
  {
    WriteUnderWay(run, steps, i, j);
    assert Enabled(run[j], steps[j]) && run[j + 1] == Apply(run[j], steps[j]) && Enabled(run[i], steps[i]);
    WriteEnds(run[j]);
    RunInv(run, steps, i);
    RunInv(run, steps, j + 1);
    HistoryOf(run[i]);
    hide IsRun, Inv, Apply, Stamp, Fresh;
  }

  /** The batch is in the history of `t`, over that of `s`, if it was logged. */
  ghost predicate Follows(s: DB, t: DB, ops: seq<(Key, Op)>, logged: bool) {
    && s.lastSeq == s.topSeq && t.lastSeq == s.lastSeq + |ops|
    && t.history == (if logged then s.history + Stamp(ops, s.lastSeq) else s.history)
  }

  lemma FollowsReads(s: DB, t: DB, ops: seq<(Key, Op)>, logged: bool, k: Key)
    requires Inv(s) && Inv(t) && Follows(s, t, ops, logged)
    ensures Read(t.history, k, t.lastSeq) == if logged then Effect(ops, k, Read(s.history, k, s.lastSeq)) else Read(s.history, k, s.lastSeq)
  {
    HistoryOf(s);
    HistoryOf(t);
    assert forall e :: e in s.history ==> e.seqno <= s.lastSeq;
    hide *;
    if logged { LoggedReads(s, t, ops, k); } else { UnloggedReads(s, t, ops, k); }
  }

  lemma LoggedReads(s: DB, t: DB, ops: seq<(Key, Op)>, k: Key)
    requires Follows(s, t, ops, true) && UniqueSeq(t.history) && forall e :: e in s.history ==> e.seqno <= s.lastSeq
    ensures Read(t.history, k, t.lastSeq) == Effect(ops, k, Read(s.history, k, s.lastSeq))
  {
    hide Stamp, Read, UniqueSeq, Effect;
    BatchRead(s.history, ops, s.lastSeq, k);
  }

  lemma UnloggedReads(s: DB, t: DB, ops: seq<(Key, Op)>, k: Key)
    requires Follows(s, t, ops, false) && UniqueSeq(s.history) && forall e :: e in s.history ==> e.seqno <= s.lastSeq
    ensures Read(t.history, k, t.lastSeq) == Read(s.history, k, s.lastSeq)
  {
    hide Stamp, Read, UniqueSeq;
    LaterSame(s.history, k, s.lastSeq, t.lastSeq);
  }

  lemma WriteFollows(run: seq<DB>, steps: seq<Step>, i: nat, j: nat)
    requires IsRun(run, steps) && run[0] == Fresh() && During(steps, i, j) && steps[i].WriteStart?
    ensures Inv(run[i]) && Inv(run[j + 1]) && Follows(run[i], run[j + 1], steps[i].ops, steps[i].fate.Logged?)
  {
    Written(run, steps, i, j);
    hide IsRun, Inv, Fresh, Stamp, During;
  }

  /**
   A write that returns OK has the effect of its batch on what Get returns, and
   one that fails has none.
   */
  lemma WriteTakesEffect(run: seq<DB>, steps: seq<Step>, i: nat, j: nat, k: Key)
    requires IsRun(run, steps) && run[0] == Fresh() && During(steps, i, j) && steps[i].WriteStart? && AllCover(run, steps, j + 1)
    ensures Shown(run[j + 1], k) == if steps[i].fate.Logged? then Effect(steps[i].ops, k, Shown(run[i], k)) else Shown(run[i], k)
  {
    FewerCover(run, steps, i, j + 1);
    hide *;
    WriteFollows(run, steps, i, j);
    RunReads(run, steps, i);
    RunReads(run, steps, j + 1);
    ShownIs(run[i], k);
    ShownIs(run[j + 1], k);
    FollowsReads(run[i], run[j + 1], steps[i].ops, steps[i].fate.Logged?, k);
  }

  lemma FewerCover(run: seq<DB>, steps: seq<Step>, m: nat, n: nat)
    requires m <= n <= |steps| < |run| && AllCover(run, steps, n)
    ensures AllCover(run, steps, m)
  {
    hide JobCovers;
  }

  /** In any run, covering or not: what a write puts, Get returns. */
  lemma PutIsShown(run: seq<DB>, steps: seq<Step>, i: nat, j: nat, k: Key)
    requires IsRun(run, steps) && run[0] == Fresh() && During(steps, i, j) && steps[i].WriteStart? && steps[i].fate.Logged?
    requires Effect(steps[i].ops, k, None).Some?
    ensures Shown(run[j + 1], k) == Effect(steps[i].ops, k, None)
  {
    var s, t := run[i], run[j + 1];
    assert Readable(t, t.lastSeq) && Shown(t, k) == GetAt(t, k, t.lastSeq);
    hide *;
    WriteFollows(run, steps, i, j);
    FollowsReads(s, t, steps[i].ops, true, k);
    EffectDecides(steps[i].ops, k, Read(s.history, k, s.lastSeq));
    ValuesRead(t, k, t.lastSeq);
  }

  lemma {:induction false} EffectDecides(ops: seq<(Key, Op)>, k: Key, was: Option<Bytes>)
    requires Effect(ops, k, None).Some?
    ensures Effect(ops, k, was) == Effect(ops, k, None)
  {
    var n := |ops| - 1;
    if ops[n].0 != k { EffectDecides(ops[..n], k, was); }
  }

  /** Every update of a write that returned OK is acknowledged, under sync as safe. */
  lemma UpdatesAcknowledged(run: seq<DB>, steps: seq<Step>, i: nat, j: nat, x: nat) returns (e: Entry)
    requires IsRun(run, steps) && run[0] == Fresh() && During(steps, i, j) && steps[i].WriteStart? && steps[i].fate.Logged? && x < |steps[i].ops|
    ensures e in run[j + 1].acked && (e.key, e.op) == steps[i].ops[x] && (steps[i].sync ==> e in run[j + 1].safe)
    ensures run[i].lastSeq < e.seqno <= run[j + 1].lastSeq
  {
    Written(run, steps, i, j);
    hide IsRun, Inv, Fresh, During;
    e := StampHas(steps[i].ops, run[i].lastSeq, x);
  }

  lemma StampHas(ops: seq<(Key, Op)>, from: nat, x: nat) returns (e: Entry)
    requires x < |ops|
    ensures e in Stamp(ops, from) && (e.key, e.op) == ops[x] && from < e.seqno <= from + |ops|
  {
    e := Entry(ops[x].0, from + 1 + x, ops[x].1);
  }

  /** An acknowledged write that nothing newer replaces is what Get returns, in any run. */
  lemma AcknowledgedShown(run: seq<DB>, steps: seq<Step>, i: nat, e: Entry)
    requires IsRun(run, steps) && run[0] == Fresh() && i < |run| && e in run[i].acked && e.op.Put?
    requires forall f :: f in run[i].history && f.key == e.key && f.seqno <= run[i].lastSeq ==> f.seqno <= e.seqno
    ensures Shown(run[i], e.key) == Some(e.op.value)
  {
    RunInv(run, steps, i);
    HistoryOf(run[i]);
    hide Inv, IsRun, GetAt;
    NewestRead(run[i], run[i].lastSeq, e);
  }

  // ------------------------------------------------- snapshots and readers

  lemma SnapshotLives(s: DB, step: Step, id: nat)
    requires Enabled(s, step) && id in s.snapshots && step != ReleaseSnapshot(id) && !step.Crash?
    ensures id in Apply(s, step).snapshots && Apply(s, step).snapshots[id] == s.snapshots[id]
  {
    hide UpTo, CompactionPicked, FlushFits, FlushedManifest, CompactedManifest, Stamp, IsSmallest, Restarts, Reopened;
  }

  lemma SnapshotBegins(s: DB, id: nat)
    requires Enabled(s, GetSnapshot(id))
    ensures var s' := Apply(s, GetSnapshot(id)); id in s'.snapshots && s'.snapshots[id] == s.lastSeq && s'.history == s.history
  {
  }

  /** Since step i no crash and no release. */
  ghost predicate Held(steps: seq<Step>, i: nat, j: nat, release: Step) {
    i < j <= |steps| && forall m :: i < m < j ==> !steps[m].Crash? && steps[m] != release
  }

  /** A snapshot lives until it is released, and the history it sees stays. */
  lemma {:induction false} SnapshotSince(run: seq<DB>, steps: seq<Step>, i: nat, j: nat, id: nat)
    requires IsRun(run, steps) && run[0] == Fresh() && Held(steps, i, j, ReleaseSnapshot(id)) && steps[i] == GetSnapshot(id)
    ensures id in run[j].snapshots && run[j].snapshots[id] == run[i].lastSeq
    ensures run[i].history <= run[j].history && forall e :: e in run[j].history && e !in run[i].history ==> run[i].lastSeq < e.seqno
    decreases j - i
  {
    hide Enabled, Apply, Inv, Fresh;
    assert Enabled(run[j - 1], steps[j - 1]) && run[j - 1 + 1] == Apply(run[j - 1], steps[j - 1]);
    if j == i + 1 {
      SnapshotBegins(run[i], id);
    } else {
      SnapshotSince(run, steps, i, j - 1, id);
      RunInv(run, steps, j - 1);
      SnapshotLives(run[j - 1], steps[j - 1], id);
      StepHistory(run[j - 1], steps[j - 1]);
      SnapshotBelow(run[j - 1], id);
    }
  }

  lemma SnapshotBelow(s: DB, id: nat)
    requires Inv(s) && id in s.snapshots
    ensures s.snapshots[id] <= s.lastSeq
  {
    hide LogsOk, RecordsOk, MemFits, FilesOk, PinsOk, BackgroundOk, TablesOk, JobOk, FlushOk, HistoryOk;
  }

  /**
   A snapshot is the map of the moment it is taken: until it is released, Get
   through it returns what Get without it returned then. In a run whose
   compactions uncover something, it still returns every value there was.
   */
  lemma SnapshotShows(run: seq<DB>, steps: seq<Step>, i: nat, j: nat, id: nat, k: Key)
    requires IsRun(run, steps) && run[0] == Fresh() && Held(steps, i, j, ReleaseSnapshot(id)) && steps[i] == GetSnapshot(id)
    ensures id in run[j].snapshots
    ensures AllCover(run, steps, j) ==> GetAt(run[j], k, run[j].snapshots[id]) == Shown(run[i], k)
    ensures Read(run[i].history, k, run[i].lastSeq).Some? ==> GetAt(run[j], k, run[j].snapshots[id]) == Shown(run[i], k)
  {
    SnapshotSince(run, steps, i, j, id);
    RunInv(run, steps, i);
    RunInv(run, steps, j);
    var s, t := run[i], run[j];
    HistoryOf(t);
    if AllCover(run, steps, j) { RunReads(run, steps, i); RunReads(run, steps, j); }
    hide IsRun, Inv, ReadsOk, Fresh, GetAt, Read, AllCover, UniqueSeq;
    NewerWritesUnseen(s.history, t.history, k, s.lastSeq);
    if AllCover(run, steps, j) {
      InvReads(s, k, s.lastSeq);
      InvReads(t, k, s.lastSeq);
    }
    ValuesRead(s, k, s.lastSeq);
    ValuesRead(t, k, s.lastSeq);
  }

  /** A snapshot sees every write acknowledged before it that is the newest of its key, in any run. */
  lemma SnapshotSees(run: seq<DB>, steps: seq<Step>, i: nat, j: nat, id: nat, e: Entry)
    requires IsRun(run, steps) && run[0] == Fresh() && Held(steps, i, j, ReleaseSnapshot(id)) && steps[i] == GetSnapshot(id)
    requires e in run[i].acked && e.op.Put?
    requires forall f :: f in run[i].history && f.key == e.key && f.seqno <= run[i].lastSeq ==> f.seqno <= e.seqno
    ensures id in run[j].snapshots && GetAt(run[j], e.key, run[j].snapshots[id]) == Some(e.op.value)
  {
    RunInv(run, steps, i);
    HistoryOf(run[i]);
    AcknowledgedShown(run, steps, i, e);
    hide Inv, IsRun, GetAt, Fresh;
    ReadNewest(run[i].history, e.key, run[i].lastSeq, e);
    SnapshotShows(run, steps, i, j, id, e.key);
  }

  lemma PinLives(s: DB, step: Step, id: nat)
    requires Enabled(s, step) && id in s.pins && step != Unpin(id) && !step.Crash?
    ensures id in Apply(s, step).pins && Apply(s, step).pins[id] == s.pins[id]
  {
    hide UpTo, CompactionPicked, FlushFits, Remains, Recovered, FlushedManifest, CompactedManifest, Stamp, IsSmallest, Replace, AddTable, EntriesOf, Kept, NewestFirst, CompactionFits, Reopened, Now;
  }

  lemma {:induction false} PinSince(run: seq<DB>, steps: seq<Step>, i: nat, j: nat, id: nat)
    requires IsRun(run, steps) && run[0] == Fresh() && Held(steps, i, j, Unpin(id)) && steps[i].Pin? && steps[i].id == id
    ensures id in run[i + 1].pins && id in run[j].pins && run[j].pins[id] == run[i + 1].pins[id]
    decreases j - i
  {
    hide Enabled, Apply, Fresh;
    assert Enabled(run[j - 1], steps[j - 1]) && run[j - 1 + 1] == Apply(run[j - 1], steps[j - 1]);
    if j == i + 1 {
      PinBegins(run[i], id, steps[i].snapshot);
    } else {
      PinSince(run, steps, i, j - 1, id);
      PinLives(run[j - 1], steps[j - 1], id);
    }
  }

  lemma PinBegins(s: DB, id: nat, snapshot: Option<nat>)
    requires Enabled(s, Pin(id, snapshot))
    ensures var s', t := Apply(s, Pin(id, snapshot)), if snapshot.Some? then s.snapshots[snapshot.value] else s.lastSeq;
            id in s'.pins && s'.pins[id] == Now(s).(seqno := t)
  {
  }

  /**
   A Get or an iterator reads, for as long as it holds what it took, what Get
   returned at the moment it began: of the last state without a snapshot, through
   the snapshot with one.
   */
  lemma ReaderShows(run: seq<DB>, steps: seq<Step>, i: nat, j: nat, id: nat, k: Key)
    requires IsRun(run, steps) && run[0] == Fresh() && Held(steps, i, j, Unpin(id)) && steps[i].Pin? && steps[i].id == id
    ensures id in run[j].pins && (steps[i].snapshot.Some? ==> steps[i].snapshot.value in run[i].snapshots)
    ensures Seen(Get(ViewLayers(run[j].pins[id]), k, run[j].pins[id].seqno)) ==
            if steps[i].snapshot.Some? then GetAt(run[i], k, run[i].snapshots[steps[i].snapshot.value]) else Shown(run[i], k)
  {
    PinSince(run, steps, i, j, id);
    assert Enabled(run[i], steps[i]) && run[i + 1] == Apply(run[i], steps[i]);
    PinBegins(run[i], id, steps[i].snapshot);
    assert ViewLayers(run[j].pins[id]) == ViewLayers(Now(run[i]));
  }

  // ---------------------------------------------------- closing and reopening

  /** What a crash makes of the history. */
  lemma CrashedHistory(s: DB, r: Restart)
    requires Inv(s) && Enabled(s, Crash(r))
    ensures var s' := Apply(s, Crash(r));
            && s.history - r.lost <= s'.history <= s.history + LogsFrom(s.logs, s.disk.log)
            && (forall e :: e in s'.history ==> e.seqno <= s'.lastSeq)
  {
    AppliedCrash(s, r);
    ReopenedFacts(s, r);
    CrashedLast(s, r);
    forall e | e in s.history && e !in r.lost && s.disk.flushed < e.seqno ensures e in LogsFrom(s.logs, s.disk.log) { UnflushedIsLogged(s, e); }
    hide Inv, Enabled, LogsFrom, Apply, Reopened, DeleteObsolete;
  }

  lemma CrashedLast(s: DB, r: Restart)
    requires Inv(s) && Enabled(s, Crash(r))
    ensures forall e :: e in Apply(s, Crash(r)).history ==> e.seqno <= Apply(s, Crash(r)).lastSeq
  {
    hide *;
    CrashInv(s, r);
    HistoryOf(Apply(s, Crash(r)));
    AppliedCrash(s, r);
    ReopenedFacts(s, r);
  }

  lemma ReopenedFacts(s: DB, r: Restart)
    ensures var s' := DeleteObsolete(Reopened(s, r));
            && s'.history == UpTo(s.history, s.disk.flushed) + Recovered(s, r.lost)
            && s'.writing == None && s'.lastSeq == r.last
  {
    hide UpTo, Recovered, OpenedManifest, WithTables;
  }

  /**
   Closing and reopening changes nothing: if no write is under way, the logs
   hold no write that failed and nothing of them is lost, Get returns afterwards
   what it returned before.
   */
  lemma ReopenShowsSame(run: seq<DB>, steps: seq<Step>, i: nat, k: Key)
    requires IsRun(run, steps) && run[0] == Fresh() && i < |steps| && AllCover(run, steps, i + 1) && steps[i].Crash? && steps[i].restart.lost == {}
    requires run[i].writing == None && LogsFrom(run[i].logs, run[i].disk.log) <= run[i].history
    ensures Shown(run[i + 1], k) == Shown(run[i], k)
  {
    RunReads(run, steps, i);
    RunReads(run, steps, i + 1);
    var s, t := run[i], run[i + 1];
    assert Enabled(s, steps[i]) && t == Apply(s, steps[i]);
    HistoryOf(s);
    CrashedHistory(s, steps[i].restart);
    hide IsRun, Inv, ReadsOk, Fresh, Shown, Read, AllCover, UniqueSeq, Apply, Enabled;
    assert s.history - {} == s.history && t.history == s.history;
    ShownIs(s, k);
    ShownIs(t, k);
    if s.lastSeq <= t.lastSeq { LaterSame(s.history, k, s.lastSeq, t.lastSeq); } else { LaterSame(s.history, k, t.lastSeq, s.lastSeq); }
  }
}
