/**
 What a run of the engine clears away and when it stops: compactions drop what
 nobody can read any more, no obsolete file outlives the step that deletes, and
 after a background error no write begins until the database is opened again.
 */
module Housekeeping {
  import opened Bytes
  import opened Versions
  import opened Compaction
  import opened Levels
  import opened Logs
  import opened Engine
  import opened EngineProofs

  // ------------------------------------------------------- after a failure

  /** A flush or a compaction that fails, or a log that could not be synced. */
  ghost predicate Fails(s: DB, step: Step) {
    || step.FlushFail? || step.CompactFail?
    || (step.WriteCommit? && s.writing.Some? && s.writing.value.fate.SyncFailed?)
  }

  /** Writes, memtable switches and background calls. */
  predicate Begins(step: Step) { step.WriteStart? || step.Switch? || step.Schedule? }

  lemma FailureKept(s: DB, step: Step)
    requires Enabled(s, step) && !step.Crash?
    ensures s.bgError || Fails(s, step) ==> Apply(s, step).bgError
    ensures s.bgError ==> !Begins(step)
  {
    hide UpTo, CompactionPicked, FlushFits, FlushedManifest, CompactedManifest, Stamp, IsSmallest, Restarts, Reopened;
  }

  lemma QuietWrites(s: DB, step: Step)
    requires Enabled(s, step) && !step.Crash? && s.bgError && s.writing == None
    ensures var s' := Apply(s, step); s'.writing == None && s'.history == s.history && s'.acked == s.acked && s'.lastSeq == s.lastSeq
  {
    hide UpTo, CompactionPicked, FlushFits, FlushedManifest, CompactedManifest, Stamp, IsSmallest, Restarts, Reopened;
  }

  /** From a failure to the next opening no write, memtable switch or background call begins. */
  lemma {:induction false} FailureStops(run: seq<DB>, steps: seq<Step>, i: nat, j: nat)
    requires IsRun(run, steps) && i < j <= |steps| && Fails(run[i], steps[i]) && forall m :: i <= m < j ==> !steps[m].Crash?
    ensures run[j].bgError && (j < |steps| ==> !Begins(steps[j]))
    ensures run[i + 1].writing == None ==>
              run[j].writing == None && run[j].history == run[i + 1].history && run[j].acked == run[i + 1].acked && run[j].lastSeq == run[i + 1].lastSeq
    decreases j - i
  {
    hide Enabled, Apply, Fails;
    assert Enabled(run[j - 1], steps[j - 1]) && run[j - 1 + 1] == Apply(run[j - 1], steps[j - 1]);
    FailureKept(run[j - 1], steps[j - 1]);
    if i + 1 < j {
      FailureStops(run, steps, i, j - 1);
      if run[i + 1].writing == None { QuietWrites(run[j - 1], steps[j - 1]); }
    }
    if j < |steps| {
      assert Enabled(run[j], steps[j]);
      StoppedNow(run[j], steps[j]);
    }
  }

  lemma StoppedNow(s: DB, step: Step)
    requires Enabled(s, step) && s.bgError
    ensures !Begins(step)
  {
  }

  // --------------------------------------------------------- obsolete files

  lemma DeletedRest(s: DB)
    ensures var s' := DeleteObsolete(s);
            && s'.bgError == s.bgError && LiveNumbers(s') == LiveNumbers(s) && s'.cur == s.cur
            && (!s.bgError ==> s'.files.Keys <= LiveNumbers(s') && forall n :: n in s'.logs ==> s.cur.log <= n)
  {
    hide Numbers;
  }

  /**
   Where a flush or a compaction ends, or the database opens, every table file
   that is left is in use or being written, and every log that is left is needed.
   */
  lemma NothingObsolete(s: DB, step: Step)
    requires Enabled(s, step) && (step.FlushInstall? || step.CompactInstall? || step.Crash?)
    ensures var s' := Apply(s, step);
            !s'.bgError ==> s'.files.Keys <= LiveNumbers(s') && forall n :: n in s'.logs ==> s'.cur.log <= n
  {
    hide LiveNumbers, Installed, Finished, Reopened, DeleteObsolete, Restarts;
    match step
    case FlushInstall => DeletedRest(Installed(s));
    case CompactInstall => DeletedRest(Finished(s));
    case Crash(r) => DeletedRest(Reopened(s, r));
  }

  // ------------------------------------------------ what compactions reclaim

  /** The end of a compaction. */
  predicate EndsJob(step: Step) { step.CompactInstall? || step.MoveInstall? || step.CompactFail? || step.Crash? }

  /** The compaction that was started by this step. */
  ghost predicate JobOf(s: DB, start: Step)
    requires start.CompactStart?
  {
    s.job.Some? && s.job.value.level == start.level && s.job.value.inputs == start.inputs
    && s.job.value.base == start.base && s.job.value.smallest == start.smallest
  }

  lemma JobGoesOn(s: DB, step: Step, start: Step)
    requires Enabled(s, step) && start.CompactStart? && JobOf(s, start) && !EndsJob(step)
    ensures JobOf(Apply(s, step), start)
  {
    hide UpTo, CompactionPicked, FlushFits, FlushedManifest, CompactedManifest, Stamp, IsSmallest, Restarts, Reopened;
  }

  lemma {:induction false} JobSince(run: seq<DB>, steps: seq<Step>, i: nat, j: nat)
    requires IsRun(run, steps) && i < j <= |steps| && steps[i].CompactStart? && forall m :: i < m < j ==> !EndsJob(steps[m])
    ensures JobOf(run[j], steps[i])
    decreases j - i
  {
    hide Enabled, Apply, JobOf;
    assert Enabled(run[j - 1], steps[j - 1]) && run[j - 1 + 1] == Apply(run[j - 1], steps[j - 1]);
    if j == i + 1 {
      JobBegins(run[i], steps[i]);
    } else {
      JobSince(run, steps, i, j - 1);
      JobGoesOn(run[j - 1], steps[j - 1], steps[i]);
    }
  }

  lemma JobBegins(s: DB, start: Step)
    requires Enabled(s, start) && start.CompactStart?
    ensures JobOf(Apply(s, start), start)
    ensures IsSmallest(s, start.smallest)
  {
    hide IsSmallest, CompactionPicked;
  }

  /** Old enough that every snapshot, or if there is none the last sequence, is at or past it. */
  ghost predicate Settles(s: DB, n: nat) {
    n <= s.lastSeq && forall id :: id in s.snapshots ==> n <= s.snapshots[id]
  }

  /** A version that is dropped: replaced, or a deletion, in time for every snapshot. */
  ghost predicate Superseded(s: DB, inputs: set<Table>, base: set<Key>, e: Entry) {
    || (exists f :: f in EntriesOf(inputs) && f.key == e.key && e.seqno < f.seqno && Settles(s, f.seqno))
    || (e.op.Delete? && Settles(s, e.seqno) && e.key in base)
  }

  /**
   What a completed compaction writes has no version that a newer one among its
   inputs replaced before the oldest snapshot held when it started, and no such
   deletion of a key that no deeper level may have.
   */
  lemma Reclaimed(run: seq<DB>, steps: seq<Step>, i: nat, j: nat, e: Entry)
    requires IsRun(run, steps) && i < j < |steps| && steps[i].CompactStart? && steps[j].CompactRecord? && forall m :: i < m < j ==> !EndsJob(steps[m])
    requires Superseded(run[i], steps[i].inputs, steps[i].base, e)
    ensures run[j].job.Some? && e !in EntriesOf(set t | t in run[j].job.value.outputs)
  {
    assert Enabled(run[i], steps[i]) && Enabled(run[j], steps[j]);
    hide *;
    JobSince(run, steps, i, j);
    OldEnough(run[i], steps[i], e);
    NotKept(run[j], steps[i], e);
  }

  lemma OldEnough(s: DB, start: Step, e: Entry)
    requires start.CompactStart? && Enabled(s, start) && Superseded(s, start.inputs, start.base, e)
    ensures Hidden(EntriesOf(start.inputs), e, start.smallest) || ObsoleteTombstone(e, start.smallest, start.base)
  {
    JobBegins(s, start);
    hide EntriesOf, Settles, IsSmallest, Enabled;
    forall n: nat | Settles(s, n) ensures n <= start.smallest { SettledBelow(s, n, start.smallest); }
  }

  lemma SettledBelow(s: DB, n: nat, smallest: nat)
    requires Settles(s, n) && IsSmallest(s, smallest)
    ensures n <= smallest
  {
  }

  lemma NotKept(s: DB, start: Step, e: Entry)
    requires Enabled(s, CompactRecord) && start.CompactStart? && JobOf(s, start)
    requires Hidden(EntriesOf(start.inputs), e, start.smallest) || ObsoleteTombstone(e, start.smallest, start.base)
    ensures e !in EntriesOf(set t | t in s.job.value.outputs)
  {
    hide EntriesOf, Hidden, SortedRun;
  }

  // ------------------------------------------------------ released snapshots

  lemma SnapshotGone(s: DB, step: Step, id: nat)
    requires Enabled(s, step) && step != GetSnapshot(id) && (id !in s.snapshots || step == ReleaseSnapshot(id) || step.Crash?)
    ensures id !in Apply(s, step).snapshots
  {
    hide UpTo, CompactionPicked, FlushFits, FlushedManifest, CompactedManifest, Stamp, IsSmallest, Restarts, OpenedManifest, WithTables;
  }

  /** A snapshot that was released, or lost by closing, holds nothing back any more. */
  lemma {:induction false} ReleasedSince(run: seq<DB>, steps: seq<Step>, i: nat, j: nat, id: nat)
    requires IsRun(run, steps) && i < j <= |steps| && (steps[i] == ReleaseSnapshot(id) || steps[i].Crash?)
    requires forall m :: i < m < j ==> steps[m] != GetSnapshot(id)
    ensures id !in run[j].snapshots
    decreases j - i
  {
    hide Enabled, Apply;
    assert Enabled(run[j - 1], steps[j - 1]) && run[j - 1 + 1] == Apply(run[j - 1], steps[j - 1]);
    if i + 1 < j { ReleasedSince(run, steps, i, j - 1, id); }
    SnapshotGone(run[j - 1], steps[j - 1], id);
  }

  lemma PinGone(s: DB, step: Step, id: nat)
    requires Enabled(s, step) && !(step.Pin? && step.id == id) && (id !in s.pins || step == Unpin(id) || step.Crash?)
    ensures id !in Apply(s, step).pins
  {
    hide UpTo, CompactionPicked, FlushFits, FlushedManifest, CompactedManifest, Stamp, IsSmallest, Restarts, OpenedManifest, WithTables, Now;
  }

  /** A reader that has let go keeps no file alive. */
  lemma {:induction false} UnpinnedSince(run: seq<DB>, steps: seq<Step>, i: nat, j: nat, id: nat)
    requires IsRun(run, steps) && i < j <= |steps| && (steps[i] == Unpin(id) || steps[i].Crash?)
    requires forall m :: i < m < j ==> !(steps[m].Pin? && steps[m].id == id)
    ensures id !in run[j].pins
    decreases j - i
  {
    hide Enabled, Apply;
    assert Enabled(run[j - 1], steps[j - 1]) && run[j - 1 + 1] == Apply(run[j - 1], steps[j - 1]);
    if i + 1 < j { UnpinnedSince(run, steps, i, j - 1, id); }
    PinGone(run[j - 1], steps[j - 1], id);
  }
}
