/**
 A version of the table tree: level 0 as a list of tables, newest first, and
 each deeper level as one run. What the engine needs of the tables a flush or a
 compaction picks is stated here; that the version set's code gives it is proved
 in Picker.
 */
module Levels {
  import opened Bytes
  import opened Versions
  import opened Compaction

  // Levels 1 .. 6 of config::kNumLevels, and the deepest level a flush may pick.
  const DEEP_LEVELS: nat := 6
  const MAX_MEM_COMPACT_LEVEL: nat := 2

  datatype Table = Table(number: nat, entries: set<Entry>)

  /** deep[i] is level i + 1. */
  datatype Version = Version(l0: seq<Table>, deep: seq<set<Table>>)

  ghost predicate InLevel(v: Version, level: nat, t: Table) {
    if level == 0 then t in v.l0 else level <= |v.deep| && t in v.deep[level - 1]
  }

  ghost predicate HasTable(v: Version, t: Table) {
    exists level: nat :: level <= DEEP_LEVELS && InLevel(v, level, t)
  }

  ghost function Tables(v: Version): set<Table> {
    (set t | t in v.l0) + (set i, t | 0 <= i < |v.deep| && t in v.deep[i] :: t)
  }

  ghost function EntriesOf(ts: set<Table>): set<Entry> {
    set t, e | t in ts && e in t.entries :: e
  }

  ghost function LevelEntries(v: Version, level: nat): set<Entry> {
    if level == 0 then EntriesOf(set t | t in v.l0)
    else if level <= |v.deep| then EntriesOf(v.deep[level - 1])
    else {}
  }

  ghost function Contents(v: Version): set<Entry> {
    EntriesOf(Tables(v))
  }

  /** Shallower levels hold the newer versions of a key. */
  ghost predicate LevelsOrdered(v: Version) {
    && |v.deep| == DEEP_LEVELS
    && forall l: nat, m: nat, e, f ::
         l < m <= DEEP_LEVELS && e in LevelEntries(v, l) && f in LevelEntries(v, m) && e.key == f.key
         ==> f.seqno < e.seqno
  }

  /** So do the earlier tables of level 0. */
  ghost predicate HeadNewest(head: Table, tail: seq<Table>) {
    forall t, e, f :: t in tail && e in head.entries && f in t.entries && e.key == f.key ==> f.seqno < e.seqno
  }

  ghost predicate NewestFirst(l0: seq<Table>) {
    l0 == [] || (HeadNewest(l0[0], l0[1..]) && NewestFirst(l0[1..]))
  }

  lemma {:induction false} NewestFirstAt(l0: seq<Table>, i: nat, j: nat, e: Entry, f: Entry)
    requires NewestFirst(l0) && i < j < |l0| && e in l0[i].entries && f in l0[j].entries && e.key == f.key
    ensures f.seqno < e.seqno
  {
    assert l0[1..][j - 1] == l0[j];
    if i > 0 { NewestFirstAt(l0[1..], i - 1, j - 1, e, f); }
  }

  ghost predicate Ordered(v: Version) {
    LevelsOrdered(v) && NewestFirst(v.l0)
  }

  /** The layers in the order Version::Get searches them. */
  ghost function Layers(v: Version): seq<set<Entry>> {
    seq(|v.l0|, i requires 0 <= i < |v.l0| => v.l0[i].entries)
    + seq(|v.deep|, i requires 0 <= i < |v.deep| => EntriesOf(v.deep[i]))
  }

  lemma InContents(v: Version, e: Entry)
    requires |v.deep| == DEEP_LEVELS
    ensures e in Contents(v) <==> exists level: nat :: level <= DEEP_LEVELS && e in LevelEntries(v, level)
  {
    if e in Contents(v) {
      var t :| t in Tables(v) && e in t.entries;
      if t in v.l0 {
        assert t in (set x | x in v.l0);
        assert e in LevelEntries(v, 0);
      } else {
        var i :| 0 <= i < |v.deep| && t in v.deep[i];
        assert e in LevelEntries(v, i + 1);
      }
    }
  }

  lemma LayersCover(v: Version)
    requires Ordered(v)
    ensures Layered(Layers(v))
    ensures Union(Layers(v)) == Contents(v)
  {
    var ls := Layers(v);
    var n := |v.l0|;
    forall i | 0 <= i < n ensures ls[i] == v.l0[i].entries && ls[i] <= LevelEntries(v, 0) {
      assert v.l0[i] in (set t | t in v.l0);
    }
    forall i | n <= i < |ls| ensures ls[i] == LevelEntries(v, i - n + 1) {}
    forall i, j, e: Entry, f: Entry | 0 <= i < j < |ls| && e in ls[i] && f in ls[j] && e.key == f.key
      ensures f.seqno < e.seqno
    {
      if n <= j {
        assert f in LevelEntries(v, j - n + 1);
        if i < n { assert e in LevelEntries(v, 0); } else { assert e in LevelEntries(v, i - n + 1); }
      } else {
        NewestFirstAt(v.l0, i, j, e, f);
      }
    }
    forall e ensures e in Union(ls) <==> e in Contents(v) {
      InUnion(ls, e);
      if e in Contents(v) {
        var t :| t in Tables(v) && e in t.entries;
        if t in v.l0 {
          var i :| 0 <= i < n && v.l0[i] == t;
          assert e in ls[i];
        } else {
          var i :| 0 <= i < |v.deep| && t in v.deep[i];
          assert e in ls[n + i];
        }
      }
      if i :| 0 <= i < |ls| && e in ls[i] {
        if i < n { assert v.l0[i] in Tables(v); }
      }
    }
  }

  // ------------------------------------------------------------ flushing

  /** The smallest user key of each is at most the largest of the other. */
  ghost predicate Overlap(a: set<Entry>, b: set<Entry>) {
    && (exists x, y :: x in a && y in b && x.key <= y.key)
    && (exists x, y :: x in a && y in b && y.key <= x.key)
  }

  /** PickLevelForMemTableOutput: nothing at or above the chosen level overlaps. */
  ghost predicate FlushFits(v: Version, level: nat, es: set<Entry>) {
    && level <= MAX_MEM_COMPACT_LEVEL
    && (level > 0 ==> forall l: nat, u :: l <= level && InLevel(v, l, u) ==> !Overlap(es, u.entries))
  }

  lemma FlushApart(v: Version, level: nat, es: set<Entry>, l: nat, e: Entry, f: Entry)
    requires |v.deep| == DEEP_LEVELS && FlushFits(v, level, es) && level > 0 && l <= level
    requires e in es && f in LevelEntries(v, l)
    ensures e.key != f.key
  {
    InLevelEntries(v, l, f);
    var u :| InLevel(v, l, u) && f in u.entries;
    assert !Overlap(es, u.entries);
  }

  function AddTable(v: Version, level: nat, t: Table): Version {
    if level == 0 then Version([t] + v.l0, v.deep)
    else if level <= |v.deep| then Version(v.l0, v.deep[level - 1 := v.deep[level - 1] + {t}])
    else v
  }

  lemma AddTableTables(v: Version, level: nat, t: Table)
    requires level <= |v.deep|
    ensures Tables(AddTable(v, level, t)) == Tables(v) + {t}
    ensures Contents(AddTable(v, level, t)) == Contents(v) + t.entries
    ensures forall l: nat :: l != level ==> LevelEntries(AddTable(v, level, t), l) == LevelEntries(v, l)
    ensures LevelEntries(AddTable(v, level, t), level) == LevelEntries(v, level) + t.entries
  {
    var v' := AddTable(v, level, t);
    if level > 0 {
      assert t in v'.deep[level - 1];
      forall x | x in Tables(v) ensures x in Tables(v') {
        if x !in v.l0 {
          var i :| 0 <= i < |v.deep| && x in v.deep[i];
          assert x in v'.deep[i];
        }
      }
    } else {
      assert v'.l0[0] == t;
      assert (set x | x in v'.l0) == (set x | x in v.l0) + {t};
    }
    assert Tables(v') == Tables(v) + {t};
    SplitEntries(Tables(v), {t});
    SplitEntries(set x | x in v.l0, {t});
    if level > 0 { SplitEntries(v.deep[level - 1], {t}); }
    assert EntriesOf({t}) == t.entries;
  }

  lemma SplitEntries(a: set<Table>, b: set<Table>)
    ensures EntriesOf(a + b) == EntriesOf(a) + EntriesOf(b)
  {
  }

  /** A flushed memtable is newer than every table, so the order is kept. */
  lemma AddTableOrdered(v: Version, level: nat, t: Table)
    requires Ordered(v) && FlushFits(v, level, t.entries)
    requires forall e, f :: e in t.entries && f in Contents(v) && e.key == f.key ==> f.seqno < e.seqno
    ensures Ordered(AddTable(v, level, t))
  {
    var v' := AddTable(v, level, t);
    AddTableTables(v, level, t);
    forall l: nat, m: nat, e, f |
      l < m <= DEEP_LEVELS && e in LevelEntries(v', l) && f in LevelEntries(v', m) && e.key == f.key
      ensures f.seqno < e.seqno
    {
      InContents(v, f);
      if l < level == m && e in LevelEntries(v, l) && f !in LevelEntries(v, m) { FlushApart(v, level, t.entries, l, f, e); }
    }
    if level == 0 {
      forall x, e, f | x in v.l0 && e in t.entries && f in x.entries && e.key == f.key ensures f.seqno < e.seqno {
        assert x in Tables(v);
      }
      assert v'.l0[1..] == v.l0;
    }
  }

  /** Several tables, themselves newest first, put on top of level 0. */
  lemma PushedTables(v: Version, tables: seq<Table>)
    ensures var v' := Version(tables + v.l0, v.deep);
            && Tables(v') == Tables(v) + (set t | t in tables)
            && Contents(v') == Contents(v) + EntriesOf(set t | t in tables)
  {
    assert Tables(Version(tables + v.l0, v.deep)) == Tables(v) + (set t | t in tables);
    SplitEntries(Tables(v), set t | t in tables);
  }

  lemma {:induction false} PushTables(v: Version, tables: seq<Table>)
    requires Ordered(v) && NewestFirst(tables)
    requires forall t, e, f :: t in tables && e in t.entries && f in Contents(v) ==> f.seqno < e.seqno
    ensures Ordered(Version(tables + v.l0, v.deep))
  {
    if tables == [] {
      assert Version(tables + v.l0, v.deep) == v;
    } else {
      var head, tail := tables[0], tables[1..];
      var rest := Version(tail + v.l0, v.deep);
      PushTables(v, tail);
      PushedTables(v, tail);
      assert AddTable(rest, 0, head) == Version(tables + v.l0, v.deep) by {
        assert [head] + (tail + v.l0) == tables + v.l0;
      }
      AddTableOrdered(rest, 0, head);
    }
  }

  // ---------------------------------------------------------- compacting

  /**
   What the proofs need of the tables of a compaction of `level`: they come
   from two levels; nothing of a picked key that stays behind in `level` is
   older; nothing that stays behind in the next level shares a key with a
   table picked in `level`; and IsBaseLevelForKey answers yes only when no
   level beyond the next has the key. Next-level tables may be left behind
   that share a key with a picked next-level table.
   */
  ghost predicate CompactionFits(v: Version, level: nat, inputs: set<Table>, base: set<Key>) {
    && level < DEEP_LEVELS
    && FromTwoLevels(v, level, inputs)
    && LeftBehindNewer(v, level, inputs)
    && NextLevelApart(v, level, inputs)
    && NothingDeeper(v, level, base)
  }

  /**
   What SetupOtherInputs gives: boundary tables of `level` are picked, and of
   the next level exactly the tables whose user keys overlap those of the
   picked tables of `level`, boundary tables or not.
   */
  ghost predicate CompactionPicked(v: Version, level: nat, inputs: set<Table>, base: set<Key>) {
    && level < DEEP_LEVELS && level < |v.deep|
    && FromTwoLevels(v, level, inputs)
    && LeftBehindNewer(v, level, inputs)
    && (forall u :: u in v.deep[level] ==> (u in inputs <==> Overlap(EntriesOf(LevelInputs(v, level, inputs)), u.entries)))
    && NothingDeeper(v, level, base)
  }

  /** inputs_[0] of a compaction. */
  ghost function LevelInputs(v: Version, level: nat, inputs: set<Table>): set<Table> {
    set t | t in inputs && InLevel(v, level, t)
  }

  lemma PickedFits(v: Version, level: nat, inputs: set<Table>, base: set<Key>)
    requires CompactionPicked(v, level, inputs, base)
    ensures CompactionFits(v, level, inputs, base)
  {
    forall t, u, e, f | t in inputs && InLevel(v, level, t) && InLevel(v, level + 1, u) && u !in inputs && e in t.entries && f in u.entries
      ensures e.key != f.key
    {
      assert e in EntriesOf(LevelInputs(v, level, inputs));
    }
  }

  ghost predicate FromTwoLevels(v: Version, level: nat, inputs: set<Table>) {
    forall t :: t in inputs ==> InLevel(v, level, t) || InLevel(v, level + 1, t)
  }

  ghost predicate LeftBehindNewer(v: Version, level: nat, inputs: set<Table>) {
    forall t, u, e, f ::
      t in inputs && InLevel(v, level, t) && InLevel(v, level, u) && u !in inputs &&
      e in t.entries && f in u.entries && e.key == f.key
      ==> e.seqno < f.seqno
  }

  ghost predicate NextLevelApart(v: Version, level: nat, inputs: set<Table>) {
    forall t, u, e, f ::
      t in inputs && InLevel(v, level, t) && InLevel(v, level + 1, u) && u !in inputs && e in t.entries && f in u.entries
      ==> e.key != f.key
  }

  ghost predicate NothingDeeper(v: Version, level: nat, base: set<Key>) {
    forall l: nat, f :: level + 2 <= l <= DEEP_LEVELS && f in LevelEntries(v, l) ==> f.key !in base
  }

  function Without(l0: seq<Table>, gone: set<Table>): seq<Table> {
    if l0 == [] then []
    else (if l0[0] in gone then [] else [l0[0]]) + Without(l0[1..], gone)
  }

  function Replace(v: Version, level: nat, inputs: set<Table>, outs: seq<Table>): Version {
    var deep := seq(|v.deep|, i requires 0 <= i < |v.deep| => v.deep[i] - inputs);
    Version(Without(v.l0, inputs),
            if level < |v.deep| then deep[level := deep[level] + (set t | t in outs)] else deep)
  }

  lemma {:induction false} WithoutKeeps(l0: seq<Table>, gone: set<Table>)
    ensures forall t :: t in Without(l0, gone) <==> t in l0 && t !in gone
  {
    if l0 != [] {
      WithoutKeeps(l0[1..], gone);
      assert l0 == [l0[0]] + l0[1..];
    }
  }

  lemma {:induction false} WithoutOrdered(l0: seq<Table>, gone: set<Table>)
    requires NewestFirst(l0)
    ensures NewestFirst(Without(l0, gone))
  {
    if l0 != [] {
      var tail := l0[1..];
      WithoutOrdered(tail, gone);
      WithoutKeeps(tail, gone);
      if l0[0] in gone {
        assert Without(l0, gone) == Without(tail, gone);
      } else {
        assert Without(l0, gone)[1..] == Without(tail, gone);
      }
    }
  }

  lemma ReplaceLevels(v: Version, level: nat, inputs: set<Table>, outs: seq<Table>, l: nat, t: Table)
    requires level < DEEP_LEVELS && |v.deep| == DEEP_LEVELS && l <= DEEP_LEVELS
    ensures InLevel(Replace(v, level, inputs, outs), l, t) <==>
            (InLevel(v, l, t) && t !in inputs) || (l == level + 1 && t in outs)
  {
    WithoutKeeps(v.l0, inputs);
  }

  lemma InTables(v: Version, t: Table)
    requires |v.deep| == DEEP_LEVELS
    ensures t in Tables(v) <==> HasTable(v, t)
  {
    if t in Tables(v) {
      if t in v.l0 {
        assert InLevel(v, 0, t);
      } else {
        var i :| 0 <= i < |v.deep| && t in v.deep[i];
        assert InLevel(v, i + 1, t);
      }
    }
  }

  lemma InLevelEntries(v: Version, l: nat, e: Entry)
    requires |v.deep| == DEEP_LEVELS && l <= DEEP_LEVELS
    ensures e in LevelEntries(v, l) <==> exists t :: InLevel(v, l, t) && e in t.entries
  {
    if e in LevelEntries(v, l) {
      if l == 0 {
        var t :| t in (set x | x in v.l0) && e in t.entries;
        assert InLevel(v, 0, t);
      } else {
        var t :| t in v.deep[l - 1] && e in t.entries;
        assert InLevel(v, l, t);
      }
    }
  }

  lemma ReplaceTables(v: Version, level: nat, inputs: set<Table>, outs: seq<Table>)
    requires level < DEEP_LEVELS && |v.deep| == DEEP_LEVELS
    ensures Tables(Replace(v, level, inputs, outs)) == (Tables(v) - inputs) + (set t | t in outs)
  {
    var v' := Replace(v, level, inputs, outs);
    forall t ensures t in Tables(v') <==> t in (Tables(v) - inputs) + (set t | t in outs) {
      InTables(v, t);
      InTables(v', t);
      forall l: nat | l <= DEEP_LEVELS { ReplaceLevels(v, level, inputs, outs, l, t); }
      if t in outs { assert InLevel(v', level + 1, t); }
      if t in Tables(v) && t !in inputs {
        var l: nat :| l <= DEEP_LEVELS && InLevel(v, l, t);
        assert InLevel(v', l, t);
      }
    }
  }

  /** The table that stays behind is on the right side of every input. */
  lemma InputAgainstRest(v: Version, level: nat, inputs: set<Table>, base: set<Key>,
                         t: Table, e: Entry, l: nat, u: Table, f: Entry)
    requires LevelsOrdered(v) && CompactionFits(v, level, inputs, base)
    requires t in inputs && e in t.entries && u !in inputs && f in u.entries
    requires l <= DEEP_LEVELS && InLevel(v, l, u) && e.key == f.key
    ensures l <= level ==> e.seqno < f.seqno
    ensures l == level + 1 ==> InLevel(v, level + 1, t)
    ensures level + 2 <= l ==> f.seqno < e.seqno && e.key !in base
  {
    var le := if InLevel(v, level, t) then level else level + 1;
    assert InLevel(v, le, t);
    InLevelEntries(v, le, e);
    InLevelEntries(v, l, f);
    assert e in LevelEntries(v, le) && f in LevelEntries(v, l);
    hide InLevel, LevelEntries, FromTwoLevels;
  }

  /** Where an entry of the new version comes from. */
  lemma ReplacedEntry(v: Version, level: nat, inputs: set<Table>, outs: seq<Table>, l: nat, e: Entry)
    requires |v.deep| == DEEP_LEVELS && level < DEEP_LEVELS && l <= DEEP_LEVELS
    requires EntriesOf(set t | t in outs) <= EntriesOf(inputs)
    requires e in LevelEntries(Replace(v, level, inputs, outs), l)
    ensures (exists t :: InLevel(v, l, t) && t !in inputs && e in t.entries)
            || (l == level + 1 && exists t :: t in inputs && e in t.entries)
  {
    var v' := Replace(v, level, inputs, outs);
    InLevelEntries(v', l, e);
    var t :| InLevel(v', l, t) && e in t.entries;
    ReplaceLevels(v, level, inputs, outs, l, t);
    if !(InLevel(v, l, t) && t !in inputs) {
      assert t in (set o | o in outs);
      assert e in EntriesOf(inputs);
    }
  }

  lemma ReplaceOrdered(v: Version, level: nat, inputs: set<Table>, base: set<Key>, outs: seq<Table>)
    requires Ordered(v) && CompactionFits(v, level, inputs, base)
    requires EntriesOf(set t | t in outs) <= EntriesOf(inputs)
    ensures Ordered(Replace(v, level, inputs, outs))
  {
    var v' := Replace(v, level, inputs, outs);
    WithoutOrdered(v.l0, inputs);
    forall l: nat, m: nat, e, f |
      l < m <= DEEP_LEVELS && e in LevelEntries(v', l) && f in LevelEntries(v', m) && e.key == f.key
      ensures f.seqno < e.seqno
    {
      hide CompactionFits, LeftBehindNewer, NextLevelApart, NothingDeeper, FromTwoLevels;
      ReplacedEntry(v, level, inputs, outs, l, e);
      ReplacedEntry(v, level, inputs, outs, m, f);
      if te :| InLevel(v, l, te) && te !in inputs && e in te.entries {
        if tf :| InLevel(v, m, tf) && tf !in inputs && f in tf.entries {
          InLevelEntries(v, l, e);
          InLevelEntries(v, m, f);
        } else {
          var t :| t in inputs && f in t.entries;
          InputAgainstRest(v, level, inputs, base, t, f, l, te, e);
        }
      } else {
        var t :| t in inputs && e in t.entries;
        var tf :| InLevel(v, m, tf) && tf !in inputs && f in tf.entries;
        InputAgainstRest(v, level, inputs, base, t, e, m, tf, f);
      }
    }
  }

  /** The next level's tables that a compaction does not pick. */
  ghost function LeftNext(v: Version, level: nat, inputs: set<Table>): set<Table> {
    if level < |v.deep| then v.deep[level] - inputs else {}
  }

  /**
   No left-behind table of the next level holds the value that a dropped
   tombstone, the newest version of its key at `smallest`, was hiding.
   */
  ghost predicate Covers(v: Version, level: nat, inputs: set<Table>, base: set<Key>, smallest: nat) {
    forall e, f :: !Uncovers(Contents(v), EntriesOf(LeftNext(v, level, inputs)), EntriesOf(inputs), smallest, base, e, f)
  }

  lemma LeftNextInRest(v: Version, level: nat, inputs: set<Table>)
    ensures EntriesOf(LeftNext(v, level, inputs)) <= EntriesOf(Tables(v) - inputs)
  {
  }

  /** Under a tombstone that readers see, only the next level can have older versions. */
  lemma OnlyNextOlder(v: Version, level: nat, inputs: set<Table>, base: set<Key>, smallest: nat, e: Entry, f: Entry)
    requires LevelsOrdered(v) && CompactionFits(v, level, inputs, base)
    requires e in EntriesOf(inputs) && e.key in base && Newest(Contents(v), e.key, smallest, e)
    requires f in EntriesOf(Tables(v) - inputs) && f.key == e.key && f.seqno <= smallest
    ensures f in EntriesOf(LeftNext(v, level, inputs))
  {
    var te :| te in inputs && e in te.entries;
    var tf :| tf in Tables(v) - inputs && f in tf.entries;
    InTables(v, tf);
    var l: nat :| l <= DEEP_LEVELS && InLevel(v, l, tf);
    InputAgainstRest(v, level, inputs, base, te, e, l, tf, f);
    assert f in Contents(v);
  }

  lemma ReplacedContents(v: Version, level: nat, inputs: set<Table>, outs: seq<Table>)
    requires |v.deep| == DEEP_LEVELS && level < DEEP_LEVELS && FromTwoLevels(v, level, inputs)
    ensures Contents(v) == EntriesOf(Tables(v) - inputs) + EntriesOf(inputs)
    ensures Contents(Replace(v, level, inputs, outs)) == EntriesOf(Tables(v) - inputs) + EntriesOf(set o | o in outs)
  {
    hide Replace, EntriesOf;
    ReplaceTables(v, level, inputs, outs);
    SplitEntries(Tables(v) - inputs, set o | o in outs);
    SplitEntries(Tables(v) - inputs, inputs);
    assert Tables(v) == (Tables(v) - inputs) + inputs by {
      forall x | x in inputs ensures x in Tables(v) { InTables(v, x); }
    }
  }

  /**
   A compaction's output over everything else reads as its input did, at and
   above `smallest`, exactly when no left-behind table of the next level is
   uncovered.
   */
  lemma ReplaceReadsIff(v: Version, level: nat, inputs: set<Table>, base: set<Key>, outs: seq<Table>, smallest: nat)
    requires Ordered(v) && UniqueSeq(Contents(v)) && CompactionFits(v, level, inputs, base)
    requires EntriesOf(set o | o in outs) == Kept(EntriesOf(inputs), smallest, base)
    ensures SameReads(Contents(Replace(v, level, inputs, outs)), Contents(v), smallest)
            <==> Covers(v, level, inputs, base, smallest)
  {
    hide *;
    ReplacedContentsOf(v, level, inputs, base, outs);
    KeptReadsIff(EntriesOf(Tables(v) - inputs), EntriesOf(inputs), smallest, base);
    CoveredNext(v, level, inputs, base, smallest);
  }

  /**
   And reader by reader: what one reader finds for one key changes exactly when
   it was the deletion that uncovers a value.
   */
  lemma ReplaceReadAt(v: Version, level: nat, inputs: set<Table>, base: set<Key>, outs: seq<Table>, smallest: nat, k: Key, t: nat)
    requires Ordered(v) && UniqueSeq(Contents(v)) && CompactionFits(v, level, inputs, base) && smallest <= t
    requires EntriesOf(set o | o in outs) == Kept(EntriesOf(inputs), smallest, base)
    ensures Read(Contents(Replace(v, level, inputs, outs)), k, t) != Read(Contents(v), k, t)
            <==> UncoversAt(Contents(v), EntriesOf(LeftNext(v, level, inputs)), EntriesOf(inputs), smallest, base, k, t)
  {
    hide *;
    ReplacedContentsOf(v, level, inputs, base, outs);
    KeptReadAt(EntriesOf(Tables(v) - inputs), EntriesOf(inputs), smallest, base, k, t);
    SameUncoveredAt(v, level, inputs, base, smallest, k, t);
  }

  lemma SameUncoveredAt(v: Version, level: nat, inputs: set<Table>, base: set<Key>, smallest: nat, k: Key, t: nat)
    requires Ordered(v) && CompactionFits(v, level, inputs, base)
    ensures UncoversAt(Contents(v), EntriesOf(Tables(v) - inputs), EntriesOf(inputs), smallest, base, k, t)
            <==> UncoversAt(Contents(v), EntriesOf(LeftNext(v, level, inputs)), EntriesOf(inputs), smallest, base, k, t)
  {
    hide EntriesOf, Contents, LeftNext, NewestFirst, Uncovers, LevelsOrdered, CompactionFits, Newest, Tables;
    forall e, f { SameUncovered(v, level, inputs, base, smallest, e, f); }
  }

  lemma ReplacedContentsOf(v: Version, level: nat, inputs: set<Table>, base: set<Key>, outs: seq<Table>)
    requires Ordered(v) && CompactionFits(v, level, inputs, base)
    ensures Contents(v) == EntriesOf(Tables(v) - inputs) + EntriesOf(inputs)
    ensures Contents(Replace(v, level, inputs, outs)) == EntriesOf(Tables(v) - inputs) + EntriesOf(set o | o in outs)
  {
    ReplacedContents(v, level, inputs, outs);
  }

  lemma CoveredNext(v: Version, level: nat, inputs: set<Table>, base: set<Key>, smallest: nat)
    requires Ordered(v) && CompactionFits(v, level, inputs, base)
    requires Contents(v) == EntriesOf(Tables(v) - inputs) + EntriesOf(inputs)
    ensures Covered(EntriesOf(Tables(v) - inputs), EntriesOf(inputs), smallest, base) <==> Covers(v, level, inputs, base, smallest)
  {
    hide EntriesOf, Contents, LeftNext, NewestFirst, Uncovers;
    var rest, merged := EntriesOf(Tables(v) - inputs), EntriesOf(inputs);
    var next := EntriesOf(LeftNext(v, level, inputs));
    forall e, f ensures Uncovers(rest + merged, rest, merged, smallest, base, e, f) <==> Uncovers(Contents(v), next, merged, smallest, base, e, f) {
      SameUncovered(v, level, inputs, base, smallest, e, f);
    }
  }

  lemma SameUncovered(v: Version, level: nat, inputs: set<Table>, base: set<Key>, smallest: nat, e: Entry, f: Entry)
    requires LevelsOrdered(v) && CompactionFits(v, level, inputs, base)
    ensures Uncovers(Contents(v), EntriesOf(Tables(v) - inputs), EntriesOf(inputs), smallest, base, e, f)
            <==> Uncovers(Contents(v), EntriesOf(LeftNext(v, level, inputs)), EntriesOf(inputs), smallest, base, e, f)
  {
    LeftNextInRest(v, level, inputs);
    hide LevelsOrdered, CompactionFits, EntriesOf, Contents, LeftNext;
    if e in EntriesOf(inputs) && e.key in base && Newest(Contents(v), e.key, smallest, e) {
      forall g | g in EntriesOf(Tables(v) - inputs) && g.key == e.key && g.seqno <= smallest
        ensures g in EntriesOf(LeftNext(v, level, inputs))
      {
        OnlyNextOlder(v, level, inputs, base, smallest, e, g);
      }
    }
  }

  // ------------------------------------------------------- the boundary check

  /** Tables of one level whose entries do not interleave. */
  ghost predicate SortedRun(ts: set<Table>) {
    forall t, u :: t in ts && u in ts && t != u ==> AllBefore(t, u) || AllBefore(u, t)
  }

  ghost predicate AllBefore(t: Table, u: Table) {
    forall e, f :: e in t.entries && f in u.entries ==> Before(e, f)
  }

  ghost predicate LargestKey(ts: set<Table>, k: Key) {
    && (exists e :: e in EntriesOf(ts) && e.key == k)
    && forall e :: e in EntriesOf(ts) ==> e.key <= k
  }

  ghost predicate StartsAt(t: Table, k: Key) {
    && (exists e :: e in t.entries && e.key == k)
    && forall e :: e in t.entries ==> k <= e.key
  }

  /** No table left behind in the next level starts at the largest user key of inputs_[1]. */
  ghost predicate NoBoundaryLeft(v: Version, level: nat, inputs: set<Table>)
    requires level < |v.deep|
  {
    forall u, k :: u in LeftNext(v, level, inputs) && LargestKey(v.deep[level] * inputs, k) ==> !StartsAt(u, k)
  }

  /** The check that AddBoundaryInputs makes for `level` would do for the next level as well. */
  lemma BoundaryCovers(v: Version, level: nat, inputs: set<Table>, base: set<Key>, smallest: nat)
    requires LevelsOrdered(v) && CompactionPicked(v, level, inputs, base)
    requires SortedRun(v.deep[level]) && NoBoundaryLeft(v, level, inputs)
    ensures Covers(v, level, inputs, base, smallest)
  {
    var deep := v.deep[level];
    hide LevelsOrdered, CompactionPicked, SortedRun, Contents;
    var next := EntriesOf(LeftNext(v, level, inputs));
    forall e, f ensures !Uncovers(Contents(v), next, EntriesOf(inputs), smallest, base, e, f) {
      if Uncovers(Contents(v), next, EntriesOf(inputs), smallest, base, e, f) {
        NextIsOlder(v, level, inputs, smallest, e, f);
        var u :| u in LeftNext(v, level, inputs) && f in u.entries;
        var t :| t in inputs && e in t.entries;
        BoundaryTable(v, level, inputs, base, t, e, u, f);
        assert false;
      }
    }
  }

  lemma NextIsOlder(v: Version, level: nat, inputs: set<Table>, smallest: nat, e: Entry, f: Entry)
    requires Newest(Contents(v), e.key, smallest, e) && e.op.Delete? && f.op.Put?
    requires Newest(EntriesOf(LeftNext(v, level, inputs)), e.key, smallest, f)
    ensures f.key == e.key && f.seqno <= e.seqno
  {
    LeftNextInRest(v, level, inputs);
    assert f in Contents(v);
  }

  lemma BoundaryTable(v: Version, level: nat, inputs: set<Table>, base: set<Key>, t: Table, e: Entry, u: Table, f: Entry)
    requires LevelsOrdered(v) && CompactionPicked(v, level, inputs, base) && SortedRun(v.deep[level])
    requires t in inputs && e in t.entries && u in LeftNext(v, level, inputs) && f in u.entries
    requires e.key == f.key && f.seqno <= e.seqno && e != f
    ensures LargestKey(v.deep[level] * inputs, e.key) && StartsAt(u, e.key)
  {
    var mine := v.deep[level] * inputs;
    assert t in mine by {
      PickedFits(v, level, inputs, base);
      InputAgainstRest(v, level, inputs, base, t, e, level + 1, u, f);
    }
    assert u in v.deep[level] && u !in inputs && SortedRun(v.deep[level]);
    forall t2 | t2 in mine && AllBefore(t, u) ensures !AllBefore(u, t2) {
      if AllBefore(u, t2) {
        BetweenPicked(v, level, inputs, base, t, u, f, t2);
        assert false;
      }
    }
    hide LevelsOrdered, CompactionPicked, LeftNext;
    RunBoundary(v.deep[level], mine, t, e, u, f);
  }

  /** In a run, if nothing picked lies beyond `u`, then `t` and `u` meet at the largest picked key. */
  lemma RunBoundary(run: set<Table>, mine: set<Table>, t: Table, e: Entry, u: Table, f: Entry)
    requires SortedRun(run) && mine <= run && t in mine && u in run && u !in mine && e in t.entries && f in u.entries
    requires e.key == f.key && f.seqno <= e.seqno && e != f
    requires forall t2 :: t2 in mine && AllBefore(t, u) ==> !AllBefore(u, t2)
    ensures LargestKey(mine, e.key) && StartsAt(u, e.key)
  {
    assert AllBefore(t, u) by { assert AllBefore(t, u) || AllBefore(u, t); assert !Before(f, e); }
    forall g | g in EntriesOf(mine) ensures g.key <= e.key {
      var t2 :| t2 in mine && g in t2.entries;
      assert AllBefore(t2, u);
      assert Before(g, f);
    }
    assert e in EntriesOf(mine);
    forall x | x in u.entries ensures e.key <= x.key { assert Before(e, x); }
  }

  /** What lies between two picked tables of the next level is picked. */
  lemma BetweenPicked(v: Version, level: nat, inputs: set<Table>, base: set<Key>, t: Table, u: Table, f: Entry, t2: Table)
    requires CompactionPicked(v, level, inputs, base) && f in u.entries
    requires t in inputs && t2 in inputs && t in v.deep[level] && t2 in v.deep[level] && u in v.deep[level]
    requires AllBefore(t, u) && AllBefore(u, t2)
    ensures u in inputs
  {
    var picked := EntriesOf(LevelInputs(v, level, inputs));
    PickedIff(v, level, inputs, base, t);
    PickedIff(v, level, inputs, base, u);
    PickedIff(v, level, inputs, base, t2);
    hide *;
    OverlapBetween(picked, t, u, f, t2);
  }

  lemma OverlapBetween(picked: set<Entry>, t: Table, u: Table, f: Entry, t2: Table)
    requires Overlap(picked, t.entries) && Overlap(picked, t2.entries)
    requires f in u.entries && AllBefore(t, u) && AllBefore(u, t2)
    ensures Overlap(picked, u.entries)
  {
    var x, y :| x in picked && y in t.entries && x.key <= y.key;
    var x', y' :| x' in picked && y' in t2.entries && y'.key <= x'.key;
    assert Before(y, f) && Before(f, y');
  }

  lemma PickedIff(v: Version, level: nat, inputs: set<Table>, base: set<Key>, u: Table)
    requires CompactionPicked(v, level, inputs, base) && u in v.deep[level]
    ensures u in inputs <==> Overlap(EntriesOf(LevelInputs(v, level, inputs)), u.entries)
  {
  }

  // A version in good order and a compaction picked as SetupOtherInputs picks it.
  // Table LEFT of the next level starts at the key at which the picked table PICKED ends,
  // where ABOVE, the picked table above them, has nothing.
  const ABOVE: Table := Table(3, {Entry(0.0, 9, Put([1]))})
  const PICKED: Table := Table(1, {Entry(0.0, 2, Put([2])), Entry(1.0, 5, Delete)})
  const LEFT: Table := Table(2, {Entry(1.0, 4, Put([3]))})
  const SPLIT: Version := Version([], [{ABOVE}, {PICKED, LEFT}, {}, {}, {}, {}])

  lemma SplitLevels()
    ensures LevelEntries(SPLIT, 1) == ABOVE.entries && LevelEntries(SPLIT, 2) == PICKED.entries + LEFT.entries
    ensures forall l: nat :: l != 1 && l != 2 ==> LevelEntries(SPLIT, l) == {}
    ensures Tables(SPLIT) == {ABOVE, PICKED, LEFT} && Contents(SPLIT) == ABOVE.entries + PICKED.entries + LEFT.entries
  {
    assert EntriesOf({ABOVE}) == ABOVE.entries && EntriesOf({PICKED, LEFT}) == PICKED.entries + LEFT.entries;
    assert SPLIT.deep[0] == {ABOVE} && SPLIT.deep[1] == {PICKED, LEFT};
    assert Tables(SPLIT) == {ABOVE, PICKED, LEFT} by {
      assert ABOVE in SPLIT.deep[0] && PICKED in SPLIT.deep[1] && LEFT in SPLIT.deep[1];
    }
    assert EntriesOf({ABOVE, PICKED, LEFT}) == ABOVE.entries + PICKED.entries + LEFT.entries;
  }

  lemma SplitOrdered()
    ensures Ordered(SPLIT) && UniqueSeq(Contents(SPLIT)) && SortedRun(SPLIT.deep[1])
  {
    SplitLevels();
    hide LevelEntries, Contents, EntriesOf, Tables;
    forall l: nat, m: nat, e, f |
      l < m <= DEEP_LEVELS && e in LevelEntries(SPLIT, l) && f in LevelEntries(SPLIT, m) && e.key == f.key
      ensures f.seqno < e.seqno
    {
      assert l == 1 && m == 2;
    }
    assert AllBefore(PICKED, LEFT);
  }

  lemma SplitNext(u: Table)
    requires u == PICKED || u == LEFT
    ensures u in {ABOVE, PICKED} <==> Overlap(EntriesOf(LevelInputs(SPLIT, 1, {ABOVE, PICKED})), u.entries)
  {
    assert LevelInputs(SPLIT, 1, {ABOVE, PICKED}) == {ABOVE} by { assert SPLIT.deep[0] == {ABOVE} && ABOVE != PICKED; }
    assert EntriesOf({ABOVE}) == ABOVE.entries;
    assert Entry(0.0, 9, Put([1])) in ABOVE.entries && Entry(0.0, 2, Put([2])) in PICKED.entries;
    assert Overlap(ABOVE.entries, PICKED.entries) && !Overlap(ABOVE.entries, LEFT.entries);
  }

  lemma SplitIn(t: Table)
    ensures InLevel(SPLIT, 1, t) <==> t == ABOVE
    ensures InLevel(SPLIT, 2, t) <==> t == PICKED || t == LEFT
  {
    assert SPLIT.deep[0] == {ABOVE} && SPLIT.deep[1] == {PICKED, LEFT};
  }

  lemma SplitFits()
    ensures FromTwoLevels(SPLIT, 1, {ABOVE, PICKED}) && LeftBehindNewer(SPLIT, 1, {ABOVE, PICKED})
  {
    forall t { SplitIn(t); }
    hide InLevel;
    forall t | t in {ABOVE, PICKED} ensures InLevel(SPLIT, 1, t) || InLevel(SPLIT, 2, t) { SplitIn(t); }
    forall u | InLevel(SPLIT, 1, u) ensures u in {ABOVE, PICKED} { SplitIn(u); }
  }

  lemma SplitNextAll()
    ensures forall u :: u in SPLIT.deep[1] ==> (u in {ABOVE, PICKED} <==> Overlap(EntriesOf(LevelInputs(SPLIT, 1, {ABOVE, PICKED})), u.entries))
  {
    var picked := EntriesOf(LevelInputs(SPLIT, 1, {ABOVE, PICKED}));
    SplitNext(PICKED);
    SplitNext(LEFT);
    assert SPLIT.deep[1] == {PICKED, LEFT};
    hide Overlap, EntriesOf, LevelInputs, SPLIT;
  }

  lemma SplitPicked()
    ensures CompactionPicked(SPLIT, 1, {ABOVE, PICKED}, {0.0, 1.0})
  {
    hide FromTwoLevels, LeftBehindNewer, Overlap, EntriesOf, LevelInputs;
    SplitFits();
    SplitLevels();
    SplitNextAll();
  }

  lemma SplitKept(out: Table)
    requires out.entries == ABOVE.entries
    ensures EntriesOf(set o | o in [out]) == ABOVE.entries
    ensures EntriesOf({ABOVE, PICKED}) == ABOVE.entries + PICKED.entries
    ensures Kept(EntriesOf({ABOVE, PICKED}), 9, {0.0, 1.0}) == ABOVE.entries
  {
    assert (set o | o in [out]) == {out} && EntriesOf({out}) == out.entries;
    assert EntriesOf({ABOVE, PICKED}) == ABOVE.entries + PICKED.entries;
    var e, f := Entry(0.0, 2, Put([2])), Entry(0.0, 9, Put([1]));
    assert f in EntriesOf({ABOVE, PICKED}) && Hidden(EntriesOf({ABOVE, PICKED}), e, 9);
  }

  lemma SplitUncovered()
    ensures !Covers(SPLIT, 1, {ABOVE, PICKED}, {0.0, 1.0}, 9)
  {
    SplitLevels();
    SplitKept(ABOVE);
    var e, f := Entry(1.0, 5, Delete), Entry(1.0, 4, Put([3]));
    assert LeftNext(SPLIT, 1, {ABOVE, PICKED}) == {LEFT} && EntriesOf({LEFT}) == LEFT.entries by { assert SPLIT.deep[1] == {PICKED, LEFT}; }
    hide Contents, EntriesOf, LeftNext, LevelEntries, Tables, Kept;
    assert Newest(Contents(SPLIT), 1.0, 9, e) && Newest(LEFT.entries, 1.0, 9, f);
    assert Uncovers(Contents(SPLIT), EntriesOf(LeftNext(SPLIT, 1, {ABOVE, PICKED})), EntriesOf({ABOVE, PICKED}), 9, {0.0, 1.0}, e, f);
  }

  /**
   The check is needed: there a deleted value reads again once the compaction
   is installed, though levels are in order and every left-behind table of
   the next level is clear of the picked tables above it.
   */
  lemma BoundaryUncovers(out: Table)
    requires out.entries == ABOVE.entries
    ensures Ordered(SPLIT) && SortedRun(SPLIT.deep[1]) && CompactionPicked(SPLIT, 1, {ABOVE, PICKED}, {0.0, 1.0})
    ensures EntriesOf(set o | o in [out]) == Kept(EntriesOf({ABOVE, PICKED}), 9, {0.0, 1.0})
    ensures !Covers(SPLIT, 1, {ABOVE, PICKED}, {0.0, 1.0}, 9)
    ensures !SameReads(Contents(Replace(SPLIT, 1, {ABOVE, PICKED}, [out])), Contents(SPLIT), 9)
  {
    hide *;
    SplitOrdered();
    SplitPicked();
    SplitUncovered();
    SplitKept(out);
    PickedFits(SPLIT, 1, {ABOVE, PICKED}, {0.0, 1.0});
    ReplaceReadsIff(SPLIT, 1, {ABOVE, PICKED}, {0.0, 1.0}, [out], 9);
  }

  lemma AddTableLevel(v: Version, level: nat, t: Table, l: nat, x: Table)
    requires level <= |v.deep|
    ensures InLevel(AddTable(v, level, t), l, x) <==> InLevel(v, l, x) || (l == level && x == t)
  {
  }

  /** A flushed table that shares a key with a compaction's input lies above it. */
  lemma FlushAboveInput(v: Version, flushLevel: nat, t: Table, level: nat, inputs: set<Table>, x: Table, e: Entry, f: Entry)
    requires |v.deep| == DEEP_LEVELS && level < DEEP_LEVELS
    requires FlushFits(v, flushLevel, t.entries) && FromTwoLevels(v, level, inputs)
    requires x in inputs && e in x.entries && f in t.entries && e.key == f.key
    ensures flushLevel <= level && e in Contents(v)
  {
    var l := if InLevel(v, level, x) then level else level + 1;
    assert InLevel(v, l, x);
    InLevelEntries(v, l, e);
    InContents(v, e);
    if flushLevel > 0 && l <= flushLevel { FlushApart(v, flushLevel, t.entries, l, f, e); }
  }

  /** A flush does not disturb the contract a running compaction relies on. */
  lemma AddTableFits(v: Version, flushLevel: nat, t: Table, level: nat, inputs: set<Table>, base: set<Key>)
    requires |v.deep| == DEEP_LEVELS && FlushFits(v, flushLevel, t.entries) && CompactionFits(v, level, inputs, base)
    requires forall e, f :: e in t.entries && f in Contents(v) ==> f.seqno < e.seqno
    requires base <= set e | e in EntriesOf(inputs) :: e.key
    requires t !in inputs
    ensures CompactionFits(AddTable(v, flushLevel, t), level, inputs, base)
  {
    AddTableFitsLevels(v, flushLevel, t, level, inputs);
    var v' := AddTable(v, flushLevel, t);
    AddTableTables(v, flushLevel, t);
    hide FlushFits, FromTwoLevels, LeftBehindNewer, NextLevelApart, Contents, AddTable;
    forall l: nat, f | level + 2 <= l <= DEEP_LEVELS && f in LevelEntries(v', l) ensures f.key !in base {
      if f !in LevelEntries(v, l) {
        forall e | e in EntriesOf(inputs) ensures e.key != f.key {
          var x :| x in inputs && e in x.entries;
          if e.key == f.key { FlushAboveInput(v, flushLevel, t, level, inputs, x, e, f); }
        }
      }
    }
  }

  lemma AddTableFitsLevels(v: Version, flushLevel: nat, t: Table, level: nat, inputs: set<Table>)
    requires |v.deep| == DEEP_LEVELS && level < DEEP_LEVELS && FlushFits(v, flushLevel, t.entries)
    requires FromTwoLevels(v, level, inputs) && LeftBehindNewer(v, level, inputs) && NextLevelApart(v, level, inputs)
    requires forall e, f :: e in t.entries && f in Contents(v) ==> f.seqno < e.seqno
    requires t !in inputs
    ensures FromTwoLevels(AddTable(v, flushLevel, t), level, inputs)
    ensures LeftBehindNewer(AddTable(v, flushLevel, t), level, inputs)
    ensures NextLevelApart(AddTable(v, flushLevel, t), level, inputs)
  {
    var v' := AddTable(v, flushLevel, t);
    forall x | x in inputs ensures InLevel(v', level, x) || InLevel(v', level + 1, x) {
      AddTableLevel(v, flushLevel, t, level, x);
      AddTableLevel(v, flushLevel, t, level + 1, x);
    }
    forall x, u, e, f |
      x in inputs && InLevel(v', level, x) && InLevel(v', level, u) && u !in inputs &&
      e in x.entries && f in u.entries && e.key == f.key
      ensures e.seqno < f.seqno
    {
      AddTableLevel(v, flushLevel, t, level, x);
      AddTableLevel(v, flushLevel, t, level, u);
      if u == t { FlushAboveInput(v, flushLevel, t, level, inputs, x, e, f); }
    }
    forall x, u, e, f |
      x in inputs && InLevel(v', level, x) && InLevel(v', level + 1, u) && u !in inputs && e in x.entries && f in u.entries
      ensures e.key != f.key
    {
      AddTableLevel(v, flushLevel, t, level, x);
      AddTableLevel(v, flushLevel, t, level + 1, u);
      if e.key == f.key && !InLevel(v, level + 1, u) {
        FlushAboveInput(v, flushLevel, t, level, inputs, x, e, f);
      }
    }
  }
}
