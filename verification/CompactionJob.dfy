/**
 DoCompactionWork seen from the engine: the output files of the loop are the
 outputs that the compaction's edit must have before it can be recorded.
 */
module CompactionJob {
  import opened Bytes
  import opened Versions
  import opened Compaction
  import opened Levels
  import opened Engine

  /** The stream a compaction reads: the entries of its inputs, in order. */
  ghost predicate Streams(items: seq<Item>, inputs: set<Table>) {
    AllParse(items) && Sorted(items) && Entries(items) == EntriesOf(inputs)
  }

  /** A compaction under way whose edit is still to be written. */
  ghost predicate Working(s: DB) {
    s.job.Some? && !s.job.value.recorded && s.flush == NoFlush && !s.broken
  }

  /** The engine after the output files `outputs` have been written. */
  ghost function WithOutputs(s: DB, outputs: seq<seq<Item>>): (r: DB)
    requires Working(s)
    ensures Working(r) && r.job.value.(outputs := s.job.value.outputs) == s.job.value
    ensures |r.job.value.outputs| == |s.job.value.outputs| + |outputs|
    ensures forall i :: 0 <= i < |s.job.value.outputs| ==> r.job.value.outputs[i] == s.job.value.outputs[i]
    ensures forall i :: 0 <= i < |outputs| ==> r.job.value.outputs[|s.job.value.outputs| + i].entries == Entries(outputs[i])
  {
    if outputs == [] then s
    else
      var n := |outputs| - 1;
      assert forall i :: 0 <= i < n ==> outputs[..n][i] == outputs[i];
      Apply(WithOutputs(s, outputs[..n]), CompactOutput(Entries(outputs[n])))
  }

  lemma EntriesConcat(a: seq<Item>, b: seq<Item>)
    ensures Entries(a + b) == Entries(a) + Entries(b)
  {
    var c := a + b;
    forall e ensures e in Entries(c) <==> e in Entries(a) + Entries(b) {
      if e in Entries(a) {
        var i :| 0 <= i < |a| && a[i].Parsed? && a[i].e == e;
        assert c[i] == a[i];
      }
      if e in Entries(b) {
        var i :| 0 <= i < |b| && b[i].Parsed? && b[i].e == e;
        assert c[|a| + i] == b[i];
      }
    }
  }

  lemma {:induction false} EntriesOfFiles(outputs: seq<seq<Item>>, tables: seq<Table>)
    requires |tables| == |outputs| && forall i :: 0 <= i < |outputs| ==> tables[i].entries == Entries(outputs[i])
    ensures EntriesOf(set t | t in tables) == Entries(Concat(outputs))
  {
    if outputs == [] {
      assert (set t | t in tables) == {};
    } else {
      var n := |outputs| - 1;
      EntriesOfFiles(outputs[..n], tables[..n]);
      EntriesConcat(Concat(outputs[..n]), outputs[n]);
      assert tables == tables[..n] + [tables[n]];
      assert (set t | t in tables) == (set t | t in tables[..n]) + {tables[n]};
      SplitEntries(set t | t in tables[..n], {tables[n]});
      assert EntriesOf({tables[n]}) == tables[n].entries;
    }
  }

  lemma {:induction false} InConcat(outputs: seq<seq<Item>>, i: nat) returns (after: seq<Item>)
    requires i < |outputs|
    ensures Concat(outputs) == Concat(outputs[..i]) + outputs[i] + after
    decreases |outputs|
  {
    var n := |outputs| - 1;
    if i == n {
      after := [];
      assert outputs[..i] == outputs[..n];
    } else {
      after := InConcat(outputs[..n], i);
      assert outputs[..n][..i] == outputs[..i];
      var a, b, c := Concat(outputs[..i]) + outputs[i], after, outputs[n];
      assert (a + b) + c == a + (b + c);
      after := after + outputs[n];
    }
  }

  lemma {:induction false} EarlierIn(outputs: seq<seq<Item>>, i: nat, j: nat, x: Item)
    requires i < j <= |outputs| && x in outputs[i]
    ensures x in Concat(outputs[..j])
    decreases j
  {
    assert outputs[..j][..j - 1] == outputs[..j - 1];
    if i < j - 1 { EarlierIn(outputs, i, j - 1, x); }
  }

  /** Files cut from a sorted stream do not interleave. */
  lemma FilesInOrder(outputs: seq<seq<Item>>, i: nat, j: nat, e: Entry, f: Entry)
    requires Sorted(Concat(outputs)) && i < j < |outputs| && e in Entries(outputs[i]) && f in Entries(outputs[j])
    ensures Before(e, f)
  {
    var p :| 0 <= p < |outputs[i]| && outputs[i][p].Parsed? && outputs[i][p].e == e;
    var q :| 0 <= q < |outputs[j]| && outputs[j][q].Parsed? && outputs[j][q].e == f;
    var after := InConcat(outputs, j);
    EarlierIn(outputs, i, j, outputs[i][p]);
    LaterInStream(Concat(outputs[..j]), outputs[j], after, outputs[i][p], q);
  }

  lemma LaterInStream(a: seq<Item>, b: seq<Item>, c: seq<Item>, x: Item, q: nat)
    requires Sorted(a + b + c) && x in a && x.Parsed? && q < |b| && b[q].Parsed?
    ensures Before(x.e, b[q].e)
  {
    var all := a + b + c;
    var k :| 0 <= k < |a| && a[k] == x;
    assert all[k] == x && all[|a| + q] == b[q];
  }

  lemma OutputsApart(outputs: seq<seq<Item>>, tables: seq<Table>)
    requires Sorted(Concat(outputs)) && |tables| == |outputs|
    requires forall i :: 0 <= i < |outputs| ==> tables[i].entries == Entries(outputs[i])
    ensures SortedRun(set t | t in tables)
  {
    hide Sorted, Concat, Entries;
    forall t, u | t in tables && u in tables && t != u ensures AllBefore(t, u) || AllBefore(u, t) {
      var i :| 0 <= i < |tables| && tables[i] == t;
      var j :| 0 <= j < |tables| && tables[j] == u;
      if i < j {
        forall e, f | e in t.entries && f in u.entries ensures Before(e, f) { FilesInOrder(outputs, i, j, e, f); }
      } else {
        forall e, f | e in u.entries && f in t.entries ensures Before(e, f) { FilesInOrder(outputs, j, i, e, f); }
      }
    }
  }

  /** The tables of the files a loop has written well. */
  lemma FilesKept(items: seq<Item>, outputs: seq<seq<Item>>, tables: seq<Table>, inputs: set<Table>, smallest: nat, base: set<Key>)
    requires Streams(items, inputs) && smallest < MAX_SEQUENCE
    requires Concat(outputs) == Survivors(items, |items|, smallest, base)
    requires |tables| == |outputs| && forall i :: 0 <= i < |outputs| ==> tables[i].entries == Entries(outputs[i])
    ensures EntriesOf(set t | t in tables) == Kept(EntriesOf(inputs), smallest, base)
    ensures SortedRun(set t | t in tables)
  {
    SurvivorsAreKept(items, |items|, smallest, base);
    assert Entries(Survivors(items, |items|, smallest, base)) == Kept(EntriesOf(inputs), smallest, base);
    hide *;
    EntriesOfFiles(outputs, tables);
    OutputsApart(outputs, tables);
  }

  /** The files of a loop that ended well are what the edit may be recorded with. */
  lemma OutputsRecord(s: DB, items: seq<Item>, outputs: seq<seq<Item>>)
    requires Working(s) && s.job.value.outputs == [] && s.job.value.smallest < MAX_SEQUENCE
    requires Streams(items, s.job.value.inputs)
    requires Concat(outputs) == Survivors(items, |items|, s.job.value.smallest, s.job.value.base)
    ensures Enabled(WithOutputs(s, outputs), CompactRecord)
  {
    var r, j := WithOutputs(s, outputs), s.job.value;
    hide WithOutputs, Streams, Kept, EntriesOf, Survivors, Concat, Entries, SortedRun;
    FilesKept(items, outputs, r.job.value.outputs, j.inputs, j.smallest, j.base);
    SameJob(r.job.value, j);
  }

  lemma SameJob(a: Job, b: Job)
    requires a.(outputs := b.outputs) == b
    ensures a.inputs == b.inputs && a.smallest == b.smallest && a.base == b.base && a.recorded == b.recorded
  {
  }

  /**
   From the start of a compaction to its edit: if the loop reports success, the
   engine can record the edit with the files the loop has written; otherwise it
   can give the job up.
   */
  method Compact(ghost s: DB, ghost level: nat, ghost inputs: set<Table>, items: seq<Item>, smallest: nat, base: set<Key>,
                 stopBefore: seq<bool>, bigAfter: seq<bool>, interrupted: nat, shutdown: bool, closes: bool, readable: bool)
    returns (ok: bool, outputs: seq<seq<Item>>)
    requires Inv(s) && !s.broken && Enabled(s, CompactStart(level, inputs, base, smallest)) && Streams(items, inputs)
    requires |stopBefore| == |bigAfter| == |items|
    ensures Working(Apply(s, CompactStart(level, inputs, base, smallest)))
    ensures ok ==> Enabled(WithOutputs(Apply(s, CompactStart(level, inputs, base, smallest)), outputs), CompactRecord)
    ensures !ok ==> Enabled(WithOutputs(Apply(s, CompactStart(level, inputs, base, smallest)), outputs), CompactFail)
  {
    ghost var started := Apply(s, CompactStart(level, inputs, base, smallest));
    StartedWorking(s, level, inputs, base, smallest);
    hide *;
    ok, outputs := DoCompactionWork(items, smallest, base, stopBefore, bigAfter, interrupted, shutdown, closes, readable);
    if ok { OutputsRecord(started, items, outputs); } else { CanFail(WithOutputs(started, outputs)); }
  }

  lemma StartedWorking(s: DB, level: nat, inputs: set<Table>, base: set<Key>, smallest: nat)
    requires Inv(s) && !s.broken && Enabled(s, CompactStart(level, inputs, base, smallest))
    ensures var started := Apply(s, CompactStart(level, inputs, base, smallest));
            && Working(started) && smallest < MAX_SEQUENCE
            && started.job.value == Job(level, inputs, base, smallest, s.cur.version, [], false, false)
  {
    hide Inv, CompactionPicked, IsSmallest;
    SmallestBelow(s, smallest);
  }

  lemma CanFail(s: DB)
    requires Working(s)
    ensures Enabled(s, CompactFail)
  {
  }

  lemma SmallestBelow(s: DB, smallest: nat)
    requires Inv(s) && IsSmallest(s, smallest)
    ensures smallest < MAX_SEQUENCE
  {
    hide MemFits, LogsOk, RecordsOk, TablesOk, FilesOk, FlushOk, JobOk, BackgroundOk, PinsOk, HistoryOk;
    if s.snapshots != map[] {
      var id :| id in s.snapshots && s.snapshots[id] == smallest;
    }
  }
}
