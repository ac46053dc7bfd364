/**
 DBImpl::Get down to the files: the memtables, and then Version::Get over the
 files of the current version, in a run of the engine.
 */
module Lookup {
  import opened Bytes
  import opened Versions
  import opened Compaction
  import opened Levels
  import opened Engine
  import opened EngineProofs
  import opened Picker
  import opened Runs

  /** The files of a version: level 0 newest first, each deeper level sorted by first keys. */
  ghost predicate Listed(v: Version, l0: seq<File>, levels: seq<seq<File>>) {
    && |levels| == DEEP_LEVELS + 1 && |v.deep| == DEEP_LEVELS
    && AllBounds(l0) && |l0| == |v.l0| && (forall i :: 0 <= i < |l0| ==> l0[i].table == v.l0[i])
    && (forall l :: 0 <= l < |levels| ==> AllBounds(levels[l]) && (l > 0 ==> ByFirstKey(levels[l])))
    && (forall l: nat, t :: l < |levels| ==> (InLevel(v, l, t) <==> t in TablesOf(levels[l])))
    && (forall l, f, g :: 0 <= l < |levels| && f in levels[l] && g in levels[l] && f.table == g.table ==> f == g)
  }

  ghost predicate ByFirstKey(files: seq<File>) {
    forall i, j :: 0 <= i < j < |files| ==> Before(files[i].smallest, files[j].smallest)
  }

  /** Sorted runs are what makes one file of a level enough. */
  lemma RunsList(v: Version, l0: seq<File>, levels: seq<seq<File>>)
    requires Listed(v, l0, levels) && AllRuns(v)
    ensures Lists(v, levels)
  {
    forall l | 0 < l < |levels| ensures Arranged(levels[l]) {
      forall t ensures t in TablesOf(levels[l]) <==> t in v.deep[l - 1] { assert InLevel(v, l, t) <==> t in TablesOf(levels[l]); }
      assert TablesOf(levels[l]) == v.deep[l - 1] && SortedRun(v.deep[l - 1]);
      hide SortedRun, AllBounds, InLevel, TablesOf, Arranged;
      SortedArranged(levels[l]);
    }
  }

  lemma ReadAtState(run: seq<DB>, steps: seq<Step>, i: nat, l0: seq<File>, levels: seq<seq<File>>, later: set<Entry>, k: Key, t: nat)
    requires IsRun(run, steps) && run[0] == Fresh() && i < |run| && AllFenced(run, steps, i) && Readable(run[i], t)
    requires Listed(run[i].cur.version, l0, levels)
    ensures Lists(run[i].cur.version, levels) && UniqueSeq(Contents(run[i].cur.version)) && UniqueSeq(run[i].mem) && t <= run[i].lastSeq
    ensures Read(run[i].history, k, t).Some? ==> GetAt(run[i], k, t) == Read(run[i].history, k, t)
    ensures AllCover(run, steps, i) ==> GetAt(run[i], k, t) == Read(run[i].history, k, t)
  {
    RunInv(run, steps, i);
    RunRuns(run, steps, i);
    assert AllRuns(run[i].cur.version);
    StateUnique(run[i], t);
    hide *;
    RunsList(run[i].cur.version, l0, levels);
    ValuesRead(run[i], k, t);
    if AllCover(run, steps, i) { GetReadsHistory(run, steps, i, k, t); }
  }

  lemma StateUnique(s: DB, t: nat)
    requires Inv(s) && Readable(s, t)
    ensures UniqueSeq(Contents(s.cur.version)) && UniqueSeq(s.mem) && t <= s.lastSeq
  {
    HistoryUnique(s);
    hide LogsOk, RecordsOk, FilesOk, JobOk, FlushOk, PinsOk, BackgroundOk, HistoryOk, Ordered, LacksSettled, Contents;
  }

  /** Writes that go into the memtable while a Get is under way do not reach it. */
  lemma LaterUnseen(mem: set<Entry>, later: set<Entry>, k: Key, t: nat)
    requires UniqueSeq(mem + later) && forall e :: e in later ==> t < e.seqno
    ensures Latest(mem + later, k, t) == Latest(mem, k, t)
  {
    SameVisible(mem + later, mem, k, t);
  }

  lemma StateGet(s: DB, k: Key, t: nat)
    ensures GetAt(s, k, t) == Seen(
              if Latest(s.mem, k, t).Some? then Latest(s.mem, k, t)
              else if s.imm.Some? && Latest(s.imm.value, k, t).Some? then Latest(s.imm.value, k, t)
              else Get(Layers(s.cur.version), k, t))
  {
    var layers := ViewLayers(Now(s));
    assert layers[0..] == layers && layers[0] == s.mem && layers[1] == ImmSet(s) && layers[2..] == Layers(s.cur.version);
    hide ViewLayers, Now, Get, Latest;
    GetFrom(layers, 0, k, t);
    GetFrom(layers, 1, k, t);
    LatestNone({}, k, t);
  }

  /**
   DBImpl::Get in the state `run[i]`, while `later` writes go on filling the
   memtable; `find` searches one memtable or table. In every run whose
   compactions start fenced a value is never missed, and if they cover as well
   the answer is what the history of writes says.
   */
  method GetValue(ghost run: seq<DB>, ghost steps: seq<Step>, ghost i: nat, ghost later: set<Entry>,
                  mem: set<Entry>, imm: Option<set<Entry>>, l0: seq<File>, levels: seq<seq<File>>,
                  k: Key, t: nat, find: set<Entry> -> Option<Entry>)
    returns (r: Option<Bytes>)
    requires IsRun(run, steps) && run[0] == Fresh() && i < |run| && AllFenced(run, steps, i) && Readable(run[i], t)
    requires UniqueSeq(run[i].mem + later) && forall e :: e in later ==> run[i].lastSeq < e.seqno
    requires mem == run[i].mem + later && imm == run[i].imm && Listed(run[i].cur.version, l0, levels)
    requires forall es :: find(es) == Latest(es, k, t)
    ensures r == GetAt(run[i], k, t)
    ensures Read(run[i].history, k, t).Some? ==> r == Read(run[i].history, k, t)
    ensures AllCover(run, steps, i) ==> r == Read(run[i].history, k, t)
  {
    ReadAtState(run, steps, i, l0, levels, later, k, t);
    assert AllBounds(l0) && |l0| == |run[i].cur.version.l0| && forall j :: 0 <= j < |l0| ==> l0[j].table == run[i].cur.version.l0[j];
    hide *;
    LaterUnseen(run[i].mem, later, k, t);
    StateGet(run[i], k, t);
    var found := find(mem);
    if found == None && imm.Some? { found := find(imm.value); }
    if found == None {
      found := VersionGet(run[i].cur.version, l0, levels, k, t, (x: Table) => find(x.entries));
    }
    r := Seen(found);
  }
}
