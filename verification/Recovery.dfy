/**
 DBImpl::Recover, RecoverLogFile and DeleteObsoleteFiles: replaying the logs a
 crash left behind into level-0 tables, and clearing away what nothing names.
 */
module Recovery {
  import opened Bytes
  import opened Versions
  import opened Levels
  import opened Logs
  import Engine

  /** Tables of distinct numbers in [lo, hi). */
  ghost predicate Numbered(tables: seq<Table>, lo: nat, hi: nat) {
    && lo <= hi
    && (forall t :: t in tables ==> lo <= t.number < hi)
    && (forall i, j :: 0 <= i < j < |tables| ==> tables[i].number != tables[j].number)
  }

  /** Tables newest first, all of whose entries have numbers below `end`. */
  ghost predicate Stacked(tables: seq<Table>, end: nat) {
    NewestFirst(tables) && forall t, e :: t in tables && e in t.entries ==> e.seqno < end
  }

  ghost function All(tables: seq<Table>): set<Entry> { EntriesOf(set t | t in tables) }

  /** WriteLevel0Table: an empty memtable takes a number but adds no table. */
  function Flushed(tables: seq<Table>, next: nat, mem: set<Entry>): seq<Table> {
    if mem == {} then tables else [Table(next, mem)] + tables
  }

  lemma FlushedAll(tables: seq<Table>, lo: nat, next: nat, mem: set<Entry>)
    requires Numbered(tables, lo, next)
    ensures Numbered(Flushed(tables, next, mem), lo, next + 1)
    ensures All(Flushed(tables, next, mem)) == All(tables) + mem
  {
    if mem != {} {
      var r := [Table(next, mem)] + tables;
      assert r[1..] == tables && r[0] == Table(next, mem);
      assert forall t :: t in r <==> t == r[0] || t in tables;
      SplitEntries({r[0]}, set t | t in tables);
      assert (set t | t in r) == {r[0]} + set t | t in tables;
    }
  }

  lemma FlushedStacked(tables: seq<Table>, next: nat, start: nat, end: nat, mem: set<Entry>)
    requires Stacked(tables, start) && start <= end
    requires forall e :: e in mem ==> start <= e.seqno < end
    ensures Stacked(Flushed(tables, next, mem), end)
  {
    if mem != {} {
      var r := [Table(next, mem)] + tables;
      assert r[1..] == tables && r[0] == Table(next, mem);
      assert forall t :: t in r <==> t == r[0] || t in tables;
    }
  }

  lemma LogMore(rs: seq<Record>, i: nat)
    requires i < |rs|
    ensures LogEntries(rs[..i + 1]) == LogEntries(rs[..i]) + BatchOf(rs[i])
  {
    assert rs[..i + 1][..i] == rs[..i] && rs[..i + 1][i] == rs[i];
  }

  /** max_sequence after a log. */
  function LastOf(rs: seq<Record>, max: nat): (r: nat)
    requires forall x :: x in rs ==> 1 <= x.first
    ensures max <= r && forall x :: x in rs ==> x.first + |x.ops| <= r + 1
    ensures r == max || exists x :: x in rs && x.first + |x.ops| == r + 1
  {
    if rs == [] then max
    else
      var r := LastOf(rs[..|rs| - 1], max);
      var x := rs[|rs| - 1];
      assert rs == rs[..|rs| - 1] + [x];
      if r < x.first + |x.ops| - 1 then x.first + |x.ops| - 1 else r
  }

  method InsertInto(mem: set<Entry>, r: Record) returns (m: set<Entry>)
    ensures m == mem + BatchOf(r)
  {
    m := mem;
    for i := 0 to |r.ops|
      invariant m == mem + BatchOf(Record(r.first, r.ops[..i]))
    {
      ghost var before, after := Record(r.first, r.ops[..i]), Record(r.first, r.ops[..i + 1]);
      assert BatchOf(after) == BatchOf(before) + {Entry(r.ops[i].0, r.first + i, r.ops[i].1)} by {
        forall e | e in BatchOf(after) ensures e in BatchOf(before) + {Entry(r.ops[i].0, r.first + i, r.ops[i].1)} {
          var k :| 0 <= k < i + 1 && e == Entry(after.ops[k].0, r.first + k, after.ops[k].1);
          assert k < i ==> after.ops[k] == before.ops[k];
        }
        forall e | e in BatchOf(before) ensures e in BatchOf(after) {
          var k :| 0 <= k < i && e == Entry(before.ops[k].0, r.first + k, before.ops[k].1);
          assert after.ops[k] == before.ops[k];
        }
        assert after.ops[i] == r.ops[i];
      }
      m := m + {Entry(r.ops[i].0, r.first + i, r.ops[i].1)};
    }
    assert r.ops[..|r.ops|] == r.ops && Record(r.first, r.ops) == r;
  }

  /** As far as the log is in order: older entries are in tables, the rest up to `end` in mem. */
  ghost predicate Replayed(tables: seq<Table>, mem: set<Entry>, cut: nat, end: nat) {
    cut <= end && Stacked(tables, cut) && forall e :: e in mem ==> cut <= e.seqno < end
  }

  lemma ReplayOne(tables: seq<Table>, mem: set<Entry>, cut: nat, rs: seq<Record>, i: nat, start: nat)
    requires i < |rs| && Ascending(rs, start) && Replayed(tables, mem, cut, EndOf(rs[..i], start))
    ensures Replayed(tables, mem + BatchOf(rs[i]), cut, EndOf(rs[..i + 1], start))
  {
    BatchBounds(rs[i]);
    assert rs[..i + 1][i] == rs[i] && (i > 0 ==> rs[..i][i - 1] == rs[i - 1]);
    hide BatchOf, Stacked;
  }

  lemma ReplayFlush(tables: seq<Table>, mem: set<Entry>, next: nat, cut: nat, end: nat)
    requires Replayed(tables, mem, cut, end)
    ensures Replayed(Flushed(tables, next, mem), {}, end, end)
  {
    FlushedStacked(tables, next, cut, end, mem);
    hide Stacked, Flushed;
  }

  lemma ReplayDone(tables: seq<Table>, cut: nat, end: nat)
    requires Replayed(tables, {}, cut, end)
    ensures Stacked(tables, end)
  {
  }

  lemma LastMore(rs: seq<Record>, i: nat, max: nat)
    requires i < |rs| && forall x :: x in rs ==> 1 <= x.first
    ensures LastOf(rs[..i + 1], max) == var r := LastOf(rs[..i], max); if r < rs[i].first + |rs[i].ops| - 1 then rs[i].first + |rs[i].ops| - 1 else r
  {
    assert rs[..i + 1][..i] == rs[..i] && rs[..i + 1][i] == rs[i];
  }

  /** How far a log has been read after `i` records. */
  ghost predicate Reading(records: seq<Record>, i: nat, start: nat, tables0: seq<Table>, lo: nat, max0: nat,
                          tables: seq<Table>, mem: set<Entry>, next: nat, max: nat, cut: nat)
    requires i <= |records| && forall x :: x in records ==> 1 <= x.first
  {
    && Numbered(tables, lo, next)
    && All(tables) + mem == All(tables0) + LogEntries(records[..i])
    && max == LastOf(records[..i], max0)
    && (Stacked(tables0, start) && Ascending(records, start) ==> Replayed(tables, mem, cut, EndOf(records[..i], start)))
  }

  lemma ReadStarts(records: seq<Record>, start: nat, tables: seq<Table>, lo: nat, next: nat, max: nat)
    requires Numbered(tables, lo, next) && forall x :: x in records ==> 1 <= x.first
    ensures Reading(records, 0, start, tables, lo, max, tables, {}, next, max, start)
  {
    assert records[..0] == [];
    hide All, Numbered, NewestFirst, Ascending;
  }

  lemma ReadOne(records: seq<Record>, i: nat, start: nat, tables0: seq<Table>, lo: nat, max0: nat,
                tables: seq<Table>, mem: set<Entry>, next: nat, max: nat, cut: nat)
    requires i < |records| && forall x :: x in records ==> 1 <= x.first
    requires Reading(records, i, start, tables0, lo, max0, tables, mem, next, max, cut)
    ensures var last := records[i].first + |records[i].ops| - 1;
            Reading(records, i + 1, start, tables0, lo, max0, tables, mem + BatchOf(records[i]), next, if last > max then last else max, cut)
  {
    LogMore(records, i);
    LastMore(records, i, max0);
    if Stacked(tables0, start) && Ascending(records, start) { ReplayOne(tables, mem, cut, records, i, start); }
    hide Stacked, Ascending, BatchOf, All, LogEntries, EndOf, Numbered, LastOf, Replayed;
    var a, b, c, d := All(tables), All(tables0), LogEntries(records[..i]), BatchOf(records[i]);
    assert a + (mem + d) == (a + mem) + d && b + (c + d) == (b + c) + d;
  }

  lemma ReadFlush(records: seq<Record>, i: nat, start: nat, tables0: seq<Table>, lo: nat, max0: nat,
                  tables: seq<Table>, mem: set<Entry>, next: nat, max: nat, cut: nat)
    requires i <= |records| && forall x :: x in records ==> 1 <= x.first
    requires Reading(records, i, start, tables0, lo, max0, tables, mem, next, max, cut)
    ensures Reading(records, i, start, tables0, lo, max0, Flushed(tables, next, mem), {}, next + 1, max, EndOf(records[..i], start))
  {
    FlushedAll(tables, lo, next, mem);
    if Stacked(tables0, start) && Ascending(records, start) { ReplayFlush(tables, mem, next, cut, EndOf(records[..i], start)); }
    hide Stacked, Ascending, All, Flushed, LogEntries, EndOf, Numbered, LastOf, Replayed;
    assert All(Flushed(tables, next, mem)) + {} == All(Flushed(tables, next, mem));
  }

  lemma ReadAll(records: seq<Record>, start: nat, tables0: seq<Table>, lo: nat, max0: nat,
                tables: seq<Table>, next: nat, max: nat, cut: nat)
    requires forall x :: x in records ==> 1 <= x.first
    requires Reading(records, |records|, start, tables0, lo, max0, tables, {}, next, max, cut)
    ensures Numbered(tables, lo, next) && All(tables) == All(tables0) + LogEntries(records) && max == LastOf(records, max0)
    ensures Stacked(tables0, start) && Ascending(records, start) ==> Stacked(tables, EndOf(records, start))
  {
    assert records[..|records|] == records;
    if Stacked(tables0, start) && Ascending(records, start) { ReplayDone(tables, cut, EndOf(records, start)); }
    hide Stacked, Ascending, All, LogEntries, EndOf, Numbered, LastOf, Replayed;
    assert All(tables) + {} == All(tables);
  }

  // ------------------------------------------- where the memtable is flushed

  /** Records a to b of the first n make up one memtable: it is full after the last of them and not before. */
  predicate Segment(full: nat -> bool, n: nat, a: nat, b: nat) {
    && a < b <= n && (a == 0 || full(a - 1)) && (b == n || full(b - 1))
    && forall i :: a <= i < b - 1 ==> !full(i)
  }

  ghost predicate FromSegment(records: seq<Record>, full: nat -> bool, n: nat, t: Table)
    requires n <= |records|
  {
    exists a: nat, b: nat :: Segment(full, n, a, b) && t.entries == LogEntries(records[a..b])
  }

  /** The tables before `tables0` are of the memtables that the first n records filled. */
  ghost predicate CutAt(records: seq<Record>, full: nat -> bool, n: nat, tables0: seq<Table>, tables: seq<Table>)
    requires n <= |records|
  {
    && |tables0| <= |tables| && tables[|tables| - |tables0|..] == tables0
    && (forall t :: t in tables[..|tables| - |tables0|] ==> FromSegment(records, full, n, t))
    && (forall a: nat, b: nat :: Segment(full, n, a, b) && LogEntries(records[a..b]) != {} ==> Has(tables, LogEntries(records[a..b])))
  }

  ghost predicate Has(tables: seq<Table>, es: set<Entry>) { exists t :: t in tables && t.entries == es }

  lemma SegmentMore(full: nat -> bool, from: nat, n: nat, a: nat, b: nat)
    requires from < n && (from == 0 || full(from - 1)) && forall i :: from <= i < n - 1 ==> !full(i)
    ensures Segment(full, n, a, b) <==> Segment(full, from, a, b) || (a == from && b == n)
  {
  }

  /** Another memtable is full, or the log ends. */
  lemma CutMore(records: seq<Record>, full: nat -> bool, from: nat, n: nat, tables0: seq<Table>, tables: seq<Table>, next: nat)
    requires from < n <= |records| && CutAt(records, full, from, tables0, tables)
    requires (from == 0 || full(from - 1)) && forall i :: from <= i < n - 1 ==> !full(i)
    ensures CutAt(records, full, n, tables0, Flushed(tables, next, LogEntries(records[from..n])))
  {
    forall a: nat, b: nat ensures Segment(full, n, a, b) <==> Segment(full, from, a, b) || (a == from && b == n) { SegmentMore(full, from, n, a, b); }
    var es := LogEntries(records[from..n]);
    assert Segment(full, n, from, n);
    hide Segment, LogEntries;
    var made, now := tables[..|tables| - |tables0|], Flushed(tables, next, es);
    FlushedOver(tables0, tables, next, es);
    hide Flushed;
    forall t | t in made ensures FromSegment(records, full, n, t) { StillFrom(records, full, from, n, t); }
    hide FromSegment, Has;
    assert FromSegment(records, full, n, Table(next, es)) by { FromLast(records, full, from, n, Table(next, es)); }
  }

  lemma FlushedOver(tables0: seq<Table>, tables: seq<Table>, next: nat, es: set<Entry>)
    requires |tables0| <= |tables| && tables[|tables| - |tables0|..] == tables0
    ensures var now := Flushed(tables, next, es);
            && |tables| <= |now| && now[|now| - |tables0|..] == tables0
            && now[..|now| - |tables0|] == (if es == {} then [] else [Table(next, es)]) + tables[..|tables| - |tables0|]
            && (es != {} ==> Has(now, es)) && (forall fs :: Has(tables, fs) ==> Has(now, fs))
  {
    var now := Flushed(tables, next, es);
    forall fs | Has(tables, fs) ensures Has(now, fs) {
      var t :| t in tables && t.entries == fs;
      assert t in now;
    }
    if es != {} { assert now[0] in now && now[0].entries == es; }
  }

  lemma FromLast(records: seq<Record>, full: nat -> bool, from: nat, n: nat, t: Table)
    requires n <= |records| && Segment(full, n, from, n) && t.entries == LogEntries(records[from..n])
    ensures FromSegment(records, full, n, t)
  {
  }

  lemma StillFrom(records: seq<Record>, full: nat -> bool, from: nat, n: nat, t: Table)
    requires from <= n <= |records| && FromSegment(records, full, from, t)
    requires forall a: nat, b: nat :: Segment(full, from, a, b) ==> Segment(full, n, a, b)
    ensures FromSegment(records, full, n, t)
  {
    var a: nat, b: nat :| Segment(full, from, a, b) && t.entries == LogEntries(records[a..b]);
    assert Segment(full, n, a, b);
  }

  lemma CutNone(records: seq<Record>, full: nat -> bool, tables: seq<Table>)
    ensures CutAt(records, full, 0, tables, tables) && LogEntries(records[0..0]) == {}
  {
    assert tables[|tables| - |tables|..] == tables;
    hide FromSegment, Has;
  }

  lemma NothingOpen(records: seq<Record>, i: nat)
    requires i <= |records|
    ensures LogEntries(records[i..i]) == {}
  {
  }

  lemma OpenMore(records: seq<Record>, from: nat, i: nat)
    requires from <= i < |records|
    ensures LogEntries(records[from..i + 1]) == LogEntries(records[from..i]) + BatchOf(records[i])
  {
    var rs := records[from..i + 1];
    assert rs[..|rs| - 1] == records[from..i] && rs[|rs| - 1] == records[i];
  }

  /**
   RecoverLogFile. full(i) says that the memtable outgrew its buffer after the
   i-th record. Whatever the numbers of the batches, every update of the log
   ends up in a table, with those that filled the same memtable and no others;
   if the numbers rise, newer tables come first.
   */
  method RecoverLogFile(records: seq<Record>, full: nat -> bool, tables0: seq<Table>, next0: nat, max0: nat,
                        ghost lo: nat, ghost start: nat)
    returns (tables: seq<Table>, next: nat, max: nat)
    requires Numbered(tables0, lo, next0) && forall x :: x in records ==> 1 <= x.first
    ensures next0 <= next && Numbered(tables, lo, next)
    ensures All(tables) == All(tables0) + LogEntries(records)
    ensures max == LastOf(records, max0)
    ensures Stacked(tables0, start) && Ascending(records, start) ==> Stacked(tables, EndOf(records, start))
    ensures CutAt(records, full, |records|, tables0, tables)
  {
    hide *;
    tables, next, max := tables0, next0, max0;
    ghost var from := 0;                            // the first record of mem
    CutNone(records, full, tables);
    var mem: set<Entry>, open := {}, false;         // open: mem is allocated
    ghost var cut := start;
    ReadStarts(records, start, tables0, lo, next0, max0);
    for i := 0 to |records|
      invariant Reading(records, i, start, tables0, lo, max0, tables, mem, next, max, cut)
      invariant next0 <= next && from <= i && (open <==> from < i) && mem == LogEntries(records[from..i])
      invariant (from == 0 || full(from - 1)) && forall k :: from <= k < i ==> !full(k)
      invariant CutAt(records, full, from, tables0, tables)
    {
      var r := records[i];
      OpenMore(records, from, i);
      ReadOne(records, i, start, tables0, lo, max0, tables, mem, next, max, cut);
      mem := InsertInto(mem, r);
      open := true;
      if r.first + |r.ops| - 1 > max { max := r.first + |r.ops| - 1; }
      if full(i) {
        ReadFlush(records, i + 1, start, tables0, lo, max0, tables, mem, next, max, cut);
        CutMore(records, full, from, i + 1, tables0, tables, next);
        tables, next, mem, open := Flushed(tables, next, mem), next + 1, {}, false;
        from, cut := i + 1, EndOf(records[..i + 1], start);
        assert LogEntries(records[from..from]) == {} by { NothingOpen(records, from); }
      }
    }
    if open {
      ReadFlush(records, |records|, start, tables0, lo, max0, tables, mem, next, max, cut);
      CutMore(records, full, from, |records|, tables0, tables, next);
      tables, next, cut, mem := Flushed(tables, next, mem), next + 1, EndOf(records[..|records|], start), {};
    } else {
      NothingOpen(records, from);
    }
    ReadAll(records, start, tables0, lo, max0, tables, next, max, cut);
  }

  // ---------------------------------------------------------------- all logs

  ghost function Entries(logs: map<nat, seq<Record>>): map<nat, set<Entry>> {
    map n | n in logs :: LogEntries(logs[n])
  }

  predicate IsLeast(s: set<nat>, n: nat) { n in s && forall m :: m in s ==> n <= m }

  lemma {:induction false} LeastExists(s: set<nat>) returns (n: nat)
    requires s != {}
    ensures IsLeast(s, n)
  {
    var x :| x in s;
    n := x;
    assert forall m :: m in s ==> m == x || m in s - {x};
    if s - {x} != {} {
      var y := LeastExists(s - {x});
      if y < x { n := y; }
    }
  }

  /** The first of the sorted log numbers. */
  method Least(s: set<nat>) returns (n: nat)
    requires s != {}
    ensures n in s && IsLeast(s, n)
  {
    ghost var least := LeastExists(s);
    assert least in s && forall m :: m in s ==> least <= m;
    n :| n in s && forall m :: m in s ==> n <= m;
  }

  /** The logs to replay. */
  function Needed(logs: map<nat, seq<Record>>, minLog: nat): (r: set<nat>)
    ensures forall n :: n in r <==> n in logs && minLog <= n
  {
    set n | n in logs && minLog <= n
  }

  ghost function Done(logs: map<nat, set<Entry>>, minLog: nat, todo: set<nat>): set<Entry> {
    set m, e | m in logs && minLog <= m && m !in todo && e in logs[m] :: e
  }

  lemma DoneMore(logs: map<nat, seq<Record>>, minLog: nat, todo: set<nat>, n: nat)
    requires n in todo && n in logs && minLog <= n
    ensures Done(Entries(logs), minLog, todo - {n}) == Done(Entries(logs), minLog, todo) + LogEntries(logs[n])
  {
    var es := Entries(logs);
    assert n in es && es[n] == LogEntries(logs[n]);
    hide Entries, LogEntries;
  }

  lemma DoneAll(es: map<nat, set<Entry>>, minLog: nat)
    ensures Done(es, minLog, {}) == Engine.LogsFrom(es, minLog)
  {
  }

  lemma NothingDone(logs: map<nat, seq<Record>>, minLog: nat, lo: nat)
    ensures Done(Entries(logs), minLog, Needed(logs, minLog)) == {} && All([]) == {} && Numbered([], lo, lo)
  {
  }

  /** If the logs are in order: tables end at `at`, where the logs left to replay go on. */
  ghost predicate InStep(logs: map<nat, seq<Record>>, todo: set<nat>, tables: seq<Table>, at: nat) {
    Stacked(tables, at) && forall m :: m in todo && m in logs ==> Ascending(logs[m], at)
  }

  lemma StepStarts(logs: map<nat, seq<Record>>, minLog: nat)
    requires InOrder(logs, minLog, 1)
    ensures InStep(logs, Needed(logs, minLog), [], 1)
  {
  }

  lemma NextLog(logs: map<nat, seq<Record>>, minLog: nat, todo: set<nat>, n: nat, at: nat, before: seq<Table>, after: seq<Table>)
    requires InOrder(logs, minLog, 1) && todo <= Needed(logs, minLog) && IsLeast(todo, n) && InStep(logs, todo, before, at)
    requires Stacked(after, EndOf(logs[n], at))
    ensures InStep(logs, todo - {n}, after, EndOf(logs[n], at))
  {
    hide Stacked;
    forall m | m in todo - {n} ensures Ascending(logs[m], EndOf(logs[n], at)) {
      assert Ascending(logs[m], EndOf(logs[n], 1)) && Ascending(logs[m], at);
    }
  }

  /** last is the largest number in the logs replayed, 0 if they have none. */
  ghost predicate LastFits(logs: map<nat, seq<Record>>, done: set<nat>, last: nat) {
    && (forall n, x :: n in done && n in logs && x in logs[n] ==> x.first + |x.ops| <= last + 1)
    && (last == 0 || exists n, x :: n in done && n in logs && x in logs[n] && x.first + |x.ops| == last + 1)
  }

  lemma LastGrows(logs: map<nat, seq<Record>>, done: set<nat>, n: nat, last: nat)
    requires done <= logs.Keys && n in logs && LastFits(logs, done, last)
    requires forall x :: x in logs[n] ==> 1 <= x.first
    ensures LastFits(logs, done + {n}, LastOf(logs[n], last))
  {
    var last' := LastOf(logs[n], last);
    hide LastOf;
    if last' == last {
      if k, x :| k in done && k in logs && x in logs[k] && x.first + |x.ops| == last + 1 { assert k in done + {n}; }
    } else {
      var x :| x in logs[n] && x.first + |x.ops| == last' + 1;
      assert n in done + {n};
    }
  }

  lemma MoreNumbers(tables: seq<Table>, lo: nat, hi: nat, hi': nat)
    requires Numbered(tables, lo, hi) && hi <= hi'
    ensures Numbered(tables, lo, hi')
  {
  }

  /** How far recovery has come when the logs in `todo` are left to replay. */
  ghost predicate Progress(logs: map<nat, seq<Record>>, minLog: nat, todo: set<nat>,
                           tables: seq<Table>, lo: nat, next: nat, last: nat, at: nat) {
    && todo <= Needed(logs, minLog)
    && (InOrder(logs, minLog, 1) ==> InStep(logs, todo, tables, at))
    && Numbered(tables, lo, next)
    && All(tables) == Done(Entries(logs), minLog, todo)
    && LastFits(logs, Needed(logs, minLog) - todo, last)
    && forall n :: n in Needed(logs, minLog) && n !in todo ==> n < next
  }

  lemma ProgressStarts(logs: map<nat, seq<Record>>, minLog: nat, lo: nat)
    ensures Progress(logs, minLog, Needed(logs, minLog), [], lo, lo, 0, 1)
  {
    NothingDone(logs, minLog, lo);
    if InOrder(logs, minLog, 1) { StepStarts(logs, minLog); }
    assert Needed(logs, minLog) - Needed(logs, minLog) == {};
  }

  lemma ProgressStep(logs: map<nat, seq<Record>>, minLog: nat, todo: set<nat>, n: nat, lo: nat, last: nat, at: nat,
                     before: seq<Table>, next: nat, after: seq<Table>, next': nat, last': nat)
    requires Progress(logs, minLog, todo, before, lo, next, last, at) && IsLeast(todo, n) && n in logs
    requires forall x :: x in logs[n] ==> 1 <= x.first
    requires Numbered(after, lo, next') && next <= next' && n < next'
    requires All(after) == All(before) + LogEntries(logs[n]) && last' == LastOf(logs[n], last)
    requires Stacked(before, at) && Ascending(logs[n], at) ==> Stacked(after, EndOf(logs[n], at))
    ensures Progress(logs, minLog, todo - {n}, after, lo, next', last', EndOf(logs[n], at))
  {
    hide LogEntries, EndOf, Numbered, Stacked, All, Done, Ascending, Entries, InOrder, LastFits, LastOf;
    DoneMore(logs, minLog, todo, n);
    LastGrows(logs, Needed(logs, minLog) - todo, n, last);
    assert Needed(logs, minLog) - (todo - {n}) == (Needed(logs, minLog) - todo) + {n};
    if InOrder(logs, minLog, 1) { NextLog(logs, minLog, todo, n, at, before, after); }
  }

  lemma ProgressEnds(logs: map<nat, seq<Record>>, minLog: nat, tables: seq<Table>, lo: nat, next: nat, last: nat, at: nat)
    requires Progress(logs, minLog, {}, tables, lo, next, last, at)
    ensures All(tables) == Engine.LogsFrom(Entries(logs), minLog)
    ensures Numbered(tables, lo, next) && forall n :: n in Needed(logs, minLog) ==> n < next
    ensures InOrder(logs, minLog, 1) ==> NewestFirst(tables)
    ensures LastFits(logs, Needed(logs, minLog), last)
  {
    hide LogEntries, EndOf, Numbered, All, Ascending, Entries, InOrder, LastFits;
    DoneAll(Entries(logs), minLog);
    assert Needed(logs, minLog) - {} == Needed(logs, minLog);
  }

  /** What says of the n-th log where its memtables are full. */
  function FullOf(full: (nat, nat) -> bool, n: nat): nat -> bool { (i: nat) => full(n, i) }

  /** The tables are those of the memtables that the logs in `done` filled. */
  ghost predicate AllCut(logs: map<nat, seq<Record>>, full: (nat, nat) -> bool, done: set<nat>, tables: seq<Table>) {
    && done <= logs.Keys
    && (forall t :: t in tables ==> exists n :: n in done && FromSegment(logs[n], FullOf(full, n), |logs[n]|, t))
    && (forall n, a: nat, b: nat :: n in done && Segment(FullOf(full, n), |logs[n]|, a, b) && LogEntries(logs[n][a..b]) != {} ==>
          Has(tables, LogEntries(logs[n][a..b])))
  }

  lemma AllCutMore(logs: map<nat, seq<Record>>, full: (nat, nat) -> bool, done: set<nat>, n: nat, before: seq<Table>, after: seq<Table>)
    requires AllCut(logs, full, done, before) && n in logs && CutAt(logs[n], FullOf(full, n), |logs[n]|, before, after)
    ensures AllCut(logs, full, done + {n}, after)
  {
    hide Segment, LogEntries, FromSegment;
    var made := after[..|after| - |before|];
    assert after == made + before;
    forall es | Has(before, es) ensures Has(after, es) {
      var t :| t in before && t.entries == es;
      assert t in after;
    }
    hide Has;
    forall t | t in after ensures exists m :: m in done + {n} && FromSegment(logs[m], FullOf(full, m), |logs[m]|, t) {
      if t in before {
        var m :| m in done && FromSegment(logs[m], FullOf(full, m), |logs[m]|, t);
        assert m in done + {n};
      } else {
        assert t in made && n in done + {n};
      }
    }
  }

  /**
   Recover after the descriptor has been read: all logs it does not make
   obsolete, in the order of their numbers. Every update in them is in a table;
   the tables are newest first if the logs were written in order.
   */
  method Recover(logs: map<nat, seq<Record>>, full: (nat, nat) -> bool, minLog: nat, next0: nat, lastSeq: nat)
    returns (tables: seq<Table>, next: nat, last: nat)
    requires forall n, x :: n in Needed(logs, minLog) && x in logs[n] ==> 1 <= x.first
    ensures All(tables) == Engine.LogsFrom(Entries(logs), minLog)
    ensures Numbered(tables, next0, next) && forall n :: n in Needed(logs, minLog) ==> n < next
    ensures AllCut(logs, full, Needed(logs, minLog), tables)
    ensures InOrder(logs, minLog, 1) ==> NewestFirst(tables)
    ensures exists max: nat :: LastFits(logs, Needed(logs, minLog), max) && last == if lastSeq < max then max else lastSeq
  {
    hide LogEntries, EndOf, Numbered, Stacked, All, Ascending, Entries, InOrder, LastFits, LastOf, NewestFirst, Engine.LogsFrom, Progress, AllCut, CutAt, FullOf;
    var todo := Needed(logs, minLog);
    tables, next, last := [], next0, 0;
    ghost var at := 1;
    ProgressStarts(logs, minLog, next0);
    AllCutStarts(logs, full, Needed(logs, minLog) - todo);
    while todo != {}
      invariant todo <= Needed(logs, minLog)
      invariant Progress(logs, minLog, todo, tables, next0, next, last, at)
      invariant AllCut(logs, full, Needed(logs, minLog) - todo, tables)
      decreases todo
    {
      var n := Least(todo);
      ghost var before, from, was := tables, next, last;
      assert Numbered(tables, next0, next) by { StillNumbered(logs, minLog, todo, tables, next0, next, last, at); }
      tables, next, last := RecoverLogFile(logs[n], FullOf(full, n), tables, next, last, next0, at);
      if next <= n {
        MoreNumbers(tables, next0, next, n + 1);
        next := n + 1;                   // MarkFileNumberUsed
      }
      ProgressStep(logs, minLog, todo, n, next0, was, at, before, from, tables, next, last);
      AllCutMore(logs, full, Needed(logs, minLog) - todo, n, before, tables);
      assert Needed(logs, minLog) - (todo - {n}) == Needed(logs, minLog) - todo + {n};
      at := EndOf(logs[n], at);
      todo := todo - {n};
    }
    ProgressEnds(logs, minLog, tables, next0, next, last, at);
    assert Needed(logs, minLog) - todo == Needed(logs, minLog);
    if last < lastSeq { last := lastSeq; }
  }

  lemma AllCutStarts(logs: map<nat, seq<Record>>, full: (nat, nat) -> bool, done: set<nat>)
    requires done == {}
    ensures AllCut(logs, full, done, [])
  {
  }

  lemma StillNumbered(logs: map<nat, seq<Record>>, minLog: nat, todo: set<nat>,
                      tables: seq<Table>, lo: nat, next: nat, last: nat, at: nat)
    requires Progress(logs, minLog, todo, tables, lo, next, last, at)
    ensures Numbered(tables, lo, next)
  {
  }

  // --------------------------------------------------------- after a crash

  /** `left` is what is readable of the logs of state `s` when `lost` is gone, all of it unsynced. */
  ghost predicate LeftBehind(s: Engine.DB, lost: set<Entry>, left: map<nat, seq<Record>>) {
    && lost !! s.synced
    && left.Keys == s.logs.Keys
    && forall n :: n in s.logs && n in s.records ==> Remains(left[n], s.records[n]) && LogEntries(left[n]) == s.logs[n] - lost
  }

  lemma LeftInOrder(s: Engine.DB, lost: set<Entry>, left: map<nat, seq<Record>>)
    requires Engine.Inv(s) && LeftBehind(s, lost, left)
    ensures InOrder(left, s.disk.log, 1)
    ensures forall n :: n in left && s.disk.log <= n ==> EndOf(left[n], 1) <= s.topSeq + 1
  {
    hide Engine.MemFits, Engine.TablesOk, Engine.FilesOk, Engine.FlushOk, Engine.JobOk, Engine.PinsOk, Engine.HistoryOk;
    hide Engine.LogUnique, Engine.MemLog, Engine.ImmLog, Engine.NumbersOk, Engine.BackgroundOk, Ascending, LogEntries, EndOf, Remains;
    assert s.records.Keys == s.logs.Keys && s.cur.log <= s.disk.log;
    RemainsInOrder(left, s.records, s.cur.log, 1);
  }

  lemma RecordBounds(rs: seq<Record>, top: nat)
    requires Ascending(rs, 1) && EndOf(rs, 1) <= top + 1
    ensures forall x :: x in rs ==> 1 <= x.first && x.first + |x.ops| <= top + 1
  {
  }

  /** A log of no records ends where it starts. */
  lemma EndBound(rs: seq<Record>, last: nat)
    requires forall x :: x in rs ==> x.first + |x.ops| <= last + 1
    ensures EndOf(rs, 1) <= last + 1
  {
    if rs != [] { assert rs[|rs| - 1] in rs; }
  }

  lemma EntryBound(rs: seq<Record>, last: nat, e: Entry)
    requires e in LogEntries(rs) && forall x :: x in rs ==> x.first + |x.ops| <= last + 1
    ensures e.seqno <= last
  {
    if rs != [] {
      if e in BatchOf(rs[|rs| - 1]) {
        BatchBounds(rs[|rs| - 1]);
        assert rs[|rs| - 1] in rs;
      } else {
        EntryBound(rs[..|rs| - 1], last, e);
      }
    }
  }

  lemma LeftLogs(s: Engine.DB, lost: set<Entry>, left: map<nat, seq<Record>>)
    requires s.records.Keys == s.logs.Keys && LeftBehind(s, lost, left)
    ensures Engine.LogsFrom(Entries(left), s.disk.log) == Engine.Recovered(s, lost)
  {
    var es := Entries(left);
    assert forall n :: n in left ==> es[n] == s.logs[n] - lost;
    hide Entries, LeftBehind;
    forall e | e in Engine.Recovered(s, lost) ensures e in Engine.LogsFrom(es, s.disk.log) {
      var m :| m in s.logs && s.disk.log <= m && e in s.logs[m];
      assert m in es && e in es[m];
    }
  }

  lemma LeftRecords(s: Engine.DB, lost: set<Entry>, left: map<nat, seq<Record>>, n: nat)
    requires Engine.Inv(s) && LeftBehind(s, lost, left) && n in left && s.disk.log <= n
    ensures forall x :: x in left[n] ==> 1 <= x.first && x.first + |x.ops| <= s.topSeq + 1
  {
    LeftInOrder(s, lost, left);
    hide Engine.Inv, LeftBehind, EndOf;
    RecordBounds(left[n], s.topSeq);
  }

  /** last is as low as the logs allow, so the numbers do not run out. */
  lemma LastBelow(s: Engine.DB, lost: set<Entry>, left: map<nat, seq<Record>>, max: nat)
    requires Engine.Inv(s) && LeftBehind(s, lost, left) && LastFits(left, Needed(left, s.disk.log), max)
    ensures max <= s.topSeq
  {
    hide Engine.Inv, LeftBehind;
    if n, x :| n in Needed(left, s.disk.log) && x in left[n] && x.first + |x.ops| == max + 1 {
      LeftRecords(s, lost, left, n);
    }
  }

  lemma EntriesBelow(left: map<nat, seq<Record>>, minLog: nat, last: nat)
    requires forall n, x :: n in Needed(left, minLog) && x in left[n] ==> x.first + |x.ops| <= last + 1
    ensures forall e :: e in Engine.LogsFrom(Entries(left), minLog) ==> e.seqno <= last
    ensures forall n :: n in left && minLog <= n ==> EndOf(left[n], 1) <= last + 1
  {
    forall n | n in left && minLog <= n ensures EndOf(left[n], 1) <= last + 1 {
      assert n in Needed(left, minLog);
      EndBound(left[n], last);
    }
    forall e | e in Engine.LogsFrom(Entries(left), minLog) ensures e.seqno <= last {
      var es := Entries(left);
      var n :| n in es && minLog <= n && e in es[n];
      assert n in Needed(left, minLog);
      EntryBound(left[n], last, e);
    }
  }

  lemma DistinctTables(tables: seq<Table>, lo: nat, hi: nat)
    requires Numbered(tables, lo, hi)
    ensures forall t :: t in tables ==> lo <= t.number < hi
    ensures forall t, u :: t in tables && u in tables && t.number == u.number ==> t == u
  {
  }

  /**
   DB::Open after a crash, in any state the engine can be in: the logs left
   behind were written in order, and what Recover makes of them, with the next
   file number for the new log, is a crash step of the engine.
   */
  method Reopen(ghost s: Engine.DB, ghost lost: set<Entry>, left: map<nat, seq<Record>>, full: (nat, nat) -> bool,
                logNumber: nat, nextFile: nat, lastSequence: nat)
    returns (tables: seq<Table>, newLog: nat, last: nat)
    requires Engine.Inv(s) && LeftBehind(s, lost, left)
    requires logNumber == s.disk.log && nextFile == s.disk.next && lastSequence == s.disk.last
    ensures Engine.Enabled(s, Engine.Crash(Engine.Restart(lost, left, tables, last, newLog, newLog + 1, true)))
  {
    hide *;
    LeftFirst(s, lost, left);
    tables, newLog, last := Recover(left, full, logNumber, nextFile, lastSequence);
    ghost var max: nat :| LastFits(left, Needed(left, logNumber), max) && last == if lastSequence < max then max else lastSequence;
    Restarted(s, lost, left, tables, last, newLog, max);
    CrashEnabled(s, Engine.Restart(lost, left, tables, last, newLog, newLog + 1, true));
  }

  lemma CrashEnabled(s: Engine.DB, r: Engine.Restart)
    requires Engine.Restarts(s, r)
    ensures Engine.Enabled(s, Engine.Crash(r))
  {
    hide Engine.Restarts;
  }

  lemma LeftFirst(s: Engine.DB, lost: set<Entry>, left: map<nat, seq<Record>>)
    requires Engine.Inv(s) && LeftBehind(s, lost, left)
    ensures forall n, x :: n in Needed(left, s.disk.log) && x in left[n] ==> 1 <= x.first
  {
    hide Engine.Inv, LeftBehind;
    forall n, x | n in Needed(left, s.disk.log) && x in left[n] ensures 1 <= x.first { LeftRecords(s, lost, left, n); }
  }

  lemma RestartTables(s: Engine.DB, lost: set<Entry>, left: map<nat, seq<Record>>, tables: seq<Table>, newLog: nat)
    requires Engine.Inv(s) && LeftBehind(s, lost, left)
    requires All(tables) == Engine.LogsFrom(Entries(left), s.disk.log) && Numbered(tables, s.disk.next, newLog)
    requires InOrder(left, s.disk.log, 1) ==> NewestFirst(tables)
    ensures NewestFirst(tables) && EntriesOf(set t | t in tables) == Engine.Recovered(s, lost)
    ensures forall t :: t in tables ==> s.disk.next <= t.number < newLog
    ensures forall t, u :: t in tables && u in tables && t.number == u.number ==> t == u
    ensures s.disk.next <= newLog
  {
    hide Engine.Inv, InOrder, NewestFirst, LeftBehind, EntriesOf, Entries, Engine.LogsFrom, Engine.Recovered;
    LeftInOrder(s, lost, left);
    InvNumbers(s);
    LeftLogs(s, lost, left);
    DistinctTables(tables, s.disk.next, newLog);
  }

  lemma RestartNumbers(s: Engine.DB, lost: set<Entry>, left: map<nat, seq<Record>>, last: nat, max: nat)
    requires Engine.Inv(s) && LeftBehind(s, lost, left) && LastFits(left, Needed(left, s.disk.log), max)
    requires last == if s.disk.last < max then max else s.disk.last
    ensures s.disk.last <= last < MAX_SEQUENCE
    ensures forall e :: e in Engine.Recovered(s, lost) ==> e.seqno <= last
    ensures forall n :: n in left && s.disk.log <= n ==> EndOf(left[n], 1) <= last + 1
  {
    assert forall n, x :: n in Needed(left, s.disk.log) && x in left[n] ==> x.first + |x.ops| <= last + 1;
    hide *;
    LastBelow(s, lost, left, max);
    InvNumbers(s);
    LeftLogs(s, lost, left);
    EntriesBelow(left, s.disk.log, last);
  }

  lemma Restarted(s: Engine.DB, lost: set<Entry>, left: map<nat, seq<Record>>, tables: seq<Table>, last: nat, newLog: nat, max: nat)
    requires Engine.Inv(s) && LeftBehind(s, lost, left) && LastFits(left, Needed(left, s.disk.log), max)
    requires last == if s.disk.last < max then max else s.disk.last
    requires All(tables) == Engine.LogsFrom(Entries(left), s.disk.log) && Numbered(tables, s.disk.next, newLog)
    requires InOrder(left, s.disk.log, 1) ==> NewestFirst(tables)
    requires forall n :: n in Needed(left, s.disk.log) ==> n < newLog
    ensures Engine.Restarts(s, Engine.Restart(lost, left, tables, last, newLog, newLog + 1, true))
  {
    hide Engine.Inv, NewestFirst, EntriesOf, Entries, Engine.LogsFrom, Engine.Recovered, LogEntries, EndOf, Remains, All, Numbered, LastFits, InOrder;
    assert forall n :: n in s.logs && s.disk.log <= n ==> n in left && n in Needed(left, s.disk.log);
    RestartTables(s, lost, left, tables, newLog);
    RestartNumbers(s, lost, left, last, max);
    hide Needed;
  }

  lemma InvNumbers(s: Engine.DB)
    requires Engine.Inv(s)
    ensures s.records.Keys == s.logs.Keys && s.disk.last <= s.topSeq < MAX_SEQUENCE
  {
    hide Engine.MemFits, Engine.TablesOk, Engine.FilesOk, Engine.FlushOk, Engine.JobOk, Engine.PinsOk, Engine.HistoryOk, Engine.LogsOk;
  }

  // ------------------------------------------------------ obsolete file removal

  datatype Kind = LogFile | DescriptorFile | TableFile | TempFile | CurrentFile | LockFile | InfoLogFile

  /** A directory entry; one that does not parse is not the database's. */
  datatype File = File(kind: Kind, number: nat) | Other

  predicate Keep(f: File, live: set<nat>, log: nat, prevLog: nat, manifest: nat) {
    f.Other? ||
    match f.kind
    case LogFile => f.number >= log || f.number == prevLog
    case DescriptorFile => f.number >= manifest
    case TableFile => f.number in live
    case TempFile => f.number in live
    case _ => true
  }

  method DeleteObsoleteFiles(names: seq<File>, live: set<nat>, log: nat, prevLog: nat, manifest: nat, bgError: bool)
    returns (deleted: set<nat>)
    ensures forall i :: i in deleted <==> 0 <= i < |names| && !bgError && !Keep(names[i], live, log, prevLog, manifest)
  {
    deleted := {};
    if bgError { return; }
    for i := 0 to |names|
      invariant forall k :: k in deleted <==> 0 <= k < i && !Keep(names[k], live, log, prevLog, manifest)
    {
      if names[i].File? {
        var keep := true;
        match names[i].kind {
          case LogFile => keep := names[i].number >= log || names[i].number == prevLog;
          case DescriptorFile => keep := names[i].number >= manifest;
          case TableFile => keep := names[i].number in live;
          case TempFile => keep := names[i].number in live;
          case _ =>
        }
        if !keep { deleted := deleted + {i}; }
      }
    }
  }

  /**
   Recover's scan of the directory: which tables of the version are missing, and
   which logs are to be replayed. A file of any type stands in for the table of
   its number.
   */
  method ScanDirectory(names: seq<File>, live: set<nat>, minLog: nat, prevLog: nat) returns (missing: set<nat>, logs: set<nat>)
    ensures forall n :: n in missing <==> n in live && forall i :: 0 <= i < |names| && names[i].File? ==> names[i].number != n
    ensures forall n: nat :: n in logs <==> File(LogFile, n) in names && (n >= minLog || n == prevLog)
  {
    missing, logs := live, {};
    for i := 0 to |names|
      invariant forall n :: n in missing <==> n in live && forall k :: 0 <= k < i && names[k].File? ==> names[k].number != n
      invariant forall n: nat :: n in logs <==> File(LogFile, n) in names[..i] && (n >= minLog || n == prevLog)
    {
      var f := names[i];
      assert names[..i + 1] == names[..i] + [f];
      if f.File? {
        missing := missing - {f.number};
        if f.kind == LogFile && (f.number >= minLog || f.number == prevLog) { logs := logs + {f.number}; }
      }
    }
  }

  lemma TableThere(s: Engine.DB, n: nat)
    requires Engine.Inv(s) && n in Engine.Numbers(s.disk.version)
    ensures n in s.files
  {
    hide Engine.MemFits, Engine.TablesOk, Engine.FlushOk, Engine.JobOk, Engine.PinsOk, Engine.HistoryOk, Engine.LogsOk, Engine.RecordsOk;
    var t :| t in Tables(s.disk.version) && t.number == n;
    assert Engine.Resolves(s.files, t, s.disk.next);
  }

  /** In any state the engine can be in, reopening finds every table and the logs it needs. */
  method ScanFindsAll(ghost s: Engine.DB, ghost left: map<nat, seq<Record>>, names: seq<File>, live: set<nat>, minLog: nat)
    returns (missing: set<nat>, logs: set<nat>)
    requires Engine.Inv(s) && live == Engine.Numbers(s.disk.version) && minLog == s.disk.log && 0 !in left
    requires forall n: nat :: n in s.files ==> File(TableFile, n) in names
    requires forall n: nat :: n in left <==> File(LogFile, n) in names
    ensures missing == {} && logs == Needed(left, minLog)
  {
    missing, logs := ScanDirectory(names, live, minLog, 0);
    forall n | n in live ensures n in s.files && n !in missing {
      TableThere(s, n);
      var i :| 0 <= i < |names| && names[i] == File(TableFile, n);
    }
  }

  /** Run over a directory, this is the deletion step of the engine: a log or table goes exactly when it does there. */
  lemma DeletionIsEngine(s: Engine.DB, n: nat, manifest: nat)
    requires n != 0
    ensures n in s.logs ==> (n in Engine.DeleteObsolete(s).logs <==>
                             s.bgError || Keep(File(LogFile, n), Engine.LiveNumbers(s), s.cur.log, 0, manifest))
    ensures n in s.files ==> (n in Engine.DeleteObsolete(s).files <==>
                              s.bgError || Keep(File(TableFile, n), Engine.LiveNumbers(s), s.cur.log, 0, manifest))
  {
    hide Engine.LiveNumbers;
  }
}
