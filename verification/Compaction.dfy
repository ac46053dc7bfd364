/**
 DBImpl::DoCompactionWork: the loop that merges a sorted stream of internal
 entries and drops the versions no reader can need, and the proof that what is
 left reads the same at every sequence a live snapshot can hold.
 */
module Compaction {
  import opened Bytes
  import opened Versions

  // -------------------------------------------------------- what survives

  /** Rule (A): a newer version of the same key is already old enough. */
  ghost predicate Hidden(inputs: set<Entry>, e: Entry, smallest: nat) {
    exists f :: f in inputs && f.key == e.key && e.seqno < f.seqno && f.seqno <= smallest
  }

  /** Rule (B): an old tombstone with nothing beneath it. */
  predicate ObsoleteTombstone(e: Entry, smallest: nat, base: set<Key>) {
    e.op.Delete? && e.seqno <= smallest && e.key in base
  }

  ghost function Kept(inputs: set<Entry>, smallest: nat, base: set<Key>): set<Entry> {
    set e | e in inputs && !Hidden(inputs, e, smallest) && !ObsoleteTombstone(e, smallest, base)
  }

  /**
   The one way a compaction can change what a reader finds: the tombstone `e`
   is the newest version of its key at `smallest` and is dropped as obsolete,
   while of the key's versions in `others` the newest one, `f`, is a value.
   */
  ghost predicate Uncovers(all: set<Entry>, others: set<Entry>, inputs: set<Entry>, smallest: nat, base: set<Key>,
                           e: Entry, f: Entry) {
    && e in inputs && ObsoleteTombstone(e, smallest, base) && Newest(all, e.key, smallest, e)
    && f.op.Put? && Newest(others, e.key, smallest, f)
  }

  /** The version that a read of `k` at `t` finds is such a tombstone. */
  ghost predicate UncoversAt(all: set<Entry>, others: set<Entry>, inputs: set<Entry>, smallest: nat, base: set<Key>,
                             k: Key, t: nat) {
    exists e, f :: Uncovers(all, others, inputs, smallest, base, e, f) && Newest(all, k, t, e)
  }

  ghost predicate Covered(rest: set<Entry>, inputs: set<Entry>, smallest: nat, base: set<Key>) {
    forall e, f :: !Uncovers(rest + inputs, rest, inputs, smallest, base, e, f)
  }

  ghost predicate SameReads(a: set<Entry>, b: set<Entry>, from: nat) {
    forall k: Key, t: nat :: from <= t ==> Read(a, k, t) == Read(b, k, t)
  }

  /** What `kept` leaves out of `inputs` is hidden or an obsolete tombstone; all it has is neither. */
  ghost predicate DropsLike(inputs: set<Entry>, kept: set<Entry>, smallest: nat, base: set<Key>) {
    && kept <= inputs
    && (forall e :: e in inputs && e !in kept ==> Hidden(inputs, e, smallest) || ObsoleteTombstone(e, smallest, base))
  }

  lemma ReadNewest(es: set<Entry>, k: Key, t: nat, e: Entry)
    requires UniqueSeq(es) && Newest(es, k, t, e)
    ensures Read(es, k, t) == if e.op.Put? then Some(e.op.value) else None
  {
    LatestIs(es, k, t, e);
  }

  /** At one key and sequence: the read differs only if a dropped tombstone uncovers a value. */
  lemma DropKeeps(rest: set<Entry>, inputs: set<Entry>, kept: set<Entry>, smallest: nat, base: set<Key>, k: Key, t: nat)
    requires UniqueSeq(rest + inputs) && DropsLike(inputs, kept, smallest, base) && smallest <= t
    requires forall e, f :: !Uncovers(rest + inputs, rest + kept, inputs, smallest, base, e, f)
    ensures Read(rest + kept, k, t) == Read(rest + inputs, k, t)
  {
    var before, after := rest + inputs, rest + kept;
    assert UniqueSeq(after);
    LatestNone(before, k, t);
    LatestNone(after, k, t);
    if Visible(before, k, t) {
      NewestExists(before, k, t);
      var e :| Newest(before, k, t, e);
      ReadNewest(before, k, t, e);
      if e in after {
        ReadNewest(after, k, t, e);
      } else {
        assert !Hidden(inputs, e, smallest);
        assert ObsoleteTombstone(e, smallest, base) && Newest(before, k, smallest, e);
        if Visible(after, k, t) {
          NewestExists(after, k, t);
          var f :| Newest(after, k, t, f);
          assert Newest(after, k, smallest, f);
          assert !Uncovers(before, after, inputs, smallest, base, e, f);
          ReadNewest(after, k, t, f);
        }
      }
    }
  }

  /** Reads at and above the bound survive exactly when no value is uncovered. */
  lemma DropIff(rest: set<Entry>, inputs: set<Entry>, kept: set<Entry>, smallest: nat, base: set<Key>)
    requires UniqueSeq(rest + inputs) && DropsLike(inputs, kept, smallest, base)
    ensures SameReads(rest + kept, rest + inputs, smallest)
            <==> forall e, f :: !Uncovers(rest + inputs, rest + kept, inputs, smallest, base, e, f)
  {
    if forall e, f :: !Uncovers(rest + inputs, rest + kept, inputs, smallest, base, e, f) {
      forall k: Key, t: nat | smallest <= t ensures Read(rest + kept, k, t) == Read(rest + inputs, k, t) {
        DropKeeps(rest, inputs, kept, smallest, base, k, t);
      }
    }
    if e, f :| Uncovers(rest + inputs, rest + kept, inputs, smallest, base, e, f) {
      assert UniqueSeq(rest + kept);
      ReadNewest(rest + inputs, e.key, smallest, e);
      ReadNewest(rest + kept, e.key, smallest, f);
      assert Read(rest + kept, e.key, smallest) != Read(rest + inputs, e.key, smallest);
    }
  }

  /**
   Compaction preserves meaning, and exactly when. `rest` is everything the
   compaction does not read, with no assumption on it: every reader at or above
   `smallest` finds what it found before, if and only if no dropped tombstone
   uncovers a value in `rest`.
   */
  lemma KeptReadsIff(rest: set<Entry>, inputs: set<Entry>, smallest: nat, base: set<Key>)
    requires UniqueSeq(rest + inputs)
    ensures SameReads(rest + Kept(inputs, smallest, base), rest + inputs, smallest)
            <==> Covered(rest, inputs, smallest, base)
  {
    var kept, all := Kept(inputs, smallest, base), rest + inputs;
    DropIff(rest, inputs, kept, smallest, base);
    forall e, f ensures Uncovers(all, rest + kept, inputs, smallest, base, e, f) <==> Uncovers(all, rest, inputs, smallest, base, e, f) {
      if e in inputs && ObsoleteTombstone(e, smallest, base) && Newest(all, e.key, smallest, e) {
        forall g | g in kept ensures g.key == e.key ==> smallest < g.seqno {
          assert g.key == e.key && g.seqno < e.seqno ==> Hidden(inputs, g, smallest);
        }
      }
    }
  }

  /** What is left of a key whose newest version was a dropped tombstone lies outside of the compaction. */
  lemma LeftOutside(rest: set<Entry>, inputs: set<Entry>, smallest: nat, base: set<Key>, t: nat, e: Entry, g: Entry)
    requires UniqueSeq(rest + inputs) && e in inputs && ObsoleteTombstone(e, smallest, base) && Newest(rest + inputs, e.key, t, e)
    requires g in rest + Kept(inputs, smallest, base) && g.key == e.key && g.seqno <= t
    ensures g in rest && g.seqno <= smallest
  {
    assert g in rest + inputs && e in rest + inputs;
    assert g in inputs && g.seqno < e.seqno ==> Hidden(inputs, g, smallest);
  }

  /**
   And reader by reader: the read of one key at one sequence changes exactly
   when the version it found is a dropped tombstone that uncovers a value.
   */
  lemma KeptReadAt(rest: set<Entry>, inputs: set<Entry>, smallest: nat, base: set<Key>, k: Key, t: nat)
    requires UniqueSeq(rest + inputs) && smallest <= t
    ensures Read(rest + Kept(inputs, smallest, base), k, t) != Read(rest + inputs, k, t)
            <==> UncoversAt(rest + inputs, rest, inputs, smallest, base, k, t)
  {
    var before, kept := rest + inputs, Kept(inputs, smallest, base);
    var after := rest + kept;
    assert UniqueSeq(after) && UniqueSeq(before);
    if e, f :| Uncovers(before, rest, inputs, smallest, base, e, f) && Newest(before, k, t, e) {
      forall g | g in after && g.key == k && g.seqno <= t ensures g.seqno <= f.seqno {
        LeftOutside(rest, inputs, smallest, base, t, e, g);
      }
      ReadNewest(before, k, t, e);
      ReadNewest(after, k, t, f);
    } else if Read(after, k, t) != Read(before, k, t) {
      LostRead(rest, inputs, smallest, base, k, t);
      assert false;
    }
  }

  lemma LostRead(rest: set<Entry>, inputs: set<Entry>, smallest: nat, base: set<Key>, k: Key, t: nat)
    requires UniqueSeq(rest + inputs) && smallest <= t
    requires Read(rest + Kept(inputs, smallest, base), k, t) != Read(rest + inputs, k, t)
    ensures UncoversAt(rest + inputs, rest, inputs, smallest, base, k, t)
  {
    var before, kept := rest + inputs, Kept(inputs, smallest, base);
    var after := rest + kept;
    LatestNone(before, k, t);
    LatestNone(after, k, t);
    assert Visible(after, k, t) ==> Visible(before, k, t);
    NewestExists(before, k, t);
    var e :| Newest(before, k, t, e);
    ReadNewest(before, k, t, e);
    if e in after { ReadNewest(after, k, t, e); }
    assert e !in after && ObsoleteTombstone(e, smallest, base) by { assert !Hidden(inputs, e, smallest); }
    NewestExists(after, k, t);
    var f :| Newest(after, k, t, f);
    ReadNewest(after, k, t, f);
    LeftOutside(rest, inputs, smallest, base, t, e, f);
    assert Newest(rest, k, smallest, f);
    assert Uncovers(before, rest, inputs, smallest, base, e, f);
  }

  /**
   The bound is exact. Below the oldest snapshot a dropped version may be the
   one a reader wanted, which is why no live snapshot may be older.
   */
  lemma OlderReadersMayLose()
    ensures exists inputs: set<Entry>, smallest: nat, k: Key, t: nat ::
              && UniqueSeq(inputs) && t < smallest
              && Read(Kept(inputs, smallest, {}), k, t) != Read(inputs, k, t)
  {
    var first, second := Entry(0.0, 1, Put([7])), Entry(0.0, 2, Put([8]));
    var inputs := {first, second};
    assert Newest(inputs, 0.0, 1, first);
    LatestIs(inputs, 0.0, 1, first);
    assert Hidden(inputs, first, 2);
    assert !Visible(Kept(inputs, 2, {}), 0.0, 1);
    LatestNone(Kept(inputs, 2, {}), 0.0, 1);
    assert Read(Kept(inputs, 2, {}), 0.0, 1) != Read(inputs, 0.0, 1);
  }

  // ------------------------------------------------------------- the loop

  /**
   What the merging iterator yields: an entry, or a key whose type byte is
   neither of the two known ones, which ParseInternalKey rejects. Such a key
   still has a user key and a number, and with them a place in the order.
   */
  datatype Item = Parsed(e: Entry) | BadType(key: Key, seqno: nat, kind: nat)

  predicate AllParse(items: seq<Item>) {
    forall i :: 0 <= i < |items| ==> items[i].Parsed?
  }

  /** Internal key order: increasing user key, then decreasing sequence. */
  predicate Before(a: Entry, b: Entry) {
    a.key < b.key || (a.key == b.key && a.seqno > b.seqno)
  }

  /** The entries come in order; where the keys that do not parse stand is left open. */
  predicate Sorted(items: seq<Item>) {
    forall i, j :: 0 <= i < j < |items| && items[i].Parsed? && items[j].Parsed? ==> Before(items[i].e, items[j].e)
  }

  function Entries(items: seq<Item>): set<Entry> {
    set i | 0 <= i < |items| && items[i].Parsed? :: items[i].e
  }

  /** last_sequence_for_key when the loop looks at item `i`. */
  function LastSequence(items: seq<Item>, i: nat): nat
    requires i < |items| && items[i].Parsed?
  {
    if i > 0 && items[i - 1].Parsed? && items[i - 1].e.key == items[i].e.key
    then items[i - 1].e.seqno else MAX_SEQUENCE
  }

  predicate Drops(items: seq<Item>, i: nat, smallest: nat, base: set<Key>)
    requires i < |items|
  {
    && items[i].Parsed?
    && (LastSequence(items, i) <= smallest || ObsoleteTombstone(items[i].e, smallest, base))
  }

  /** The first `n` items without those dropped. */
  function Survivors(items: seq<Item>, n: nat, smallest: nat, base: set<Key>): seq<Item>
    requires n <= |items|
  {
    if n == 0 then []
    else Survivors(items, n - 1, smallest, base)
         + (if Drops(items, n - 1, smallest, base) then [] else [items[n - 1]])
  }

  function Concat<T>(files: seq<seq<T>>): seq<T> {
    if files == [] then [] else Concat(files[..|files| - 1]) + files[|files| - 1]
  }

  lemma ConcatSnoc<T>(files: seq<seq<T>>, f: seq<T>)
    ensures Concat(files + [f]) == Concat(files) + f
  {
    assert (files + [f])[..|files|] == files;
  }

  /**
   Where an output file may end: before item k (point 2k), when ShouldStopBefore
   says so, and after it (point 2k + 1), when it has gone into a file that is big
   enough then.
   */
  predicate Wants(items: seq<Item>, smallest: nat, base: set<Key>, stopBefore: seq<bool>, bigAfter: seq<bool>, point: nat)
    requires |stopBefore| == |bigAfter| == |items| && point < 2 * |items|
  {
    var k := point / 2;
    if point % 2 == 0 then stopBefore[k] else bigAfter[k] && !Drops(items, k, smallest, base)
  }

  /** What has been written by then. */
  function WrittenAt(items: seq<Item>, smallest: nat, base: set<Key>, point: nat): seq<Item>
    requires point < 2 * |items|
  {
    Survivors(items, (point + 1) / 2, smallest, base)
  }

  ghost predicate EndsAt(outputs: seq<seq<Item>>, s: seq<Item>) {
    exists f :: 0 <= f <= |outputs| && Concat(outputs[..f]) == s
  }

  ghost predicate Wanted(items: seq<Item>, smallest: nat, base: set<Key>, stopBefore: seq<bool>, bigAfter: seq<bool>, n: nat, s: seq<Item>)
    requires |stopBefore| == |bigAfter| == |items| && n <= 2 * |items|
  {
    exists point: nat :: point < n && Wants(items, smallest, base, stopBefore, bigAfter, point) && s == WrittenAt(items, smallest, base, point)
  }

  /** Files end at the first n points where they are to end, and the first m files nowhere else. */
  ghost predicate CutRight(items: seq<Item>, smallest: nat, base: set<Key>, stopBefore: seq<bool>, bigAfter: seq<bool>, n: nat,
                           outputs: seq<seq<Item>>, m: nat)
    requires |stopBefore| == |bigAfter| == |items| && n <= 2 * |items| && m <= |outputs|
  {
    && (forall point: nat :: point < n && Wants(items, smallest, base, stopBefore, bigAfter, point) ==>
          EndsAt(outputs, WrittenAt(items, smallest, base, point)))
    && (forall f :: 0 < f <= m ==> WantedEnd(items, smallest, base, stopBefore, bigAfter, n, outputs, f))
  }

  ghost predicate WantedEnd(items: seq<Item>, smallest: nat, base: set<Key>, stopBefore: seq<bool>, bigAfter: seq<bool>, n: nat,
                            outputs: seq<seq<Item>>, f: nat)
    requires |stopBefore| == |bigAfter| == |items| && n <= 2 * |items| && f <= |outputs|
  {
    Wanted(items, smallest, base, stopBefore, bigAfter, n, Concat(outputs[..f]))
  }

  lemma EndsStay(outputs: seq<seq<Item>>, f: seq<Item>, s: seq<Item>)
    requires EndsAt(outputs, s)
    ensures EndsAt(outputs + [f], s)
  {
    var n :| 0 <= n <= |outputs| && Concat(outputs[..n]) == s;
    assert (outputs + [f])[..n] == outputs[..n];
  }

  /** The file that is closed last need not be one that was to end. */
  lemma CutLast(items: seq<Item>, smallest: nat, base: set<Key>, stopBefore: seq<bool>, bigAfter: seq<bool>, n: nat, outputs: seq<seq<Item>>, f: seq<Item>)
    requires |stopBefore| == |bigAfter| == |items| && n <= 2 * |items|
    requires CutRight(items, smallest, base, stopBefore, bigAfter, n, outputs, |outputs|)
    ensures CutRight(items, smallest, base, stopBefore, bigAfter, n, outputs + [f], |outputs|)
  {
    forall x | 0 < x <= |outputs| ensures WantedEnd(items, smallest, base, stopBefore, bigAfter, n, outputs + [f], x) {
      assert WantedEnd(items, smallest, base, stopBefore, bigAfter, n, outputs, x) && (outputs + [f])[..x] == outputs[..x];
    }
    hide Wants, WrittenAt, EndsAt, WantedEnd;
    forall s | EndsAt(outputs, s) ensures EndsAt(outputs + [f], s) { EndsStay(outputs, f, s); }
  }

  /** One point further, where no file is to end or none is open. */
  lemma CutStay(items: seq<Item>, smallest: nat, base: set<Key>, stopBefore: seq<bool>, bigAfter: seq<bool>, n: nat, outputs: seq<seq<Item>>)
    requires |stopBefore| == |bigAfter| == |items| && n < 2 * |items|
    requires CutRight(items, smallest, base, stopBefore, bigAfter, n, outputs, |outputs|)
    requires Wants(items, smallest, base, stopBefore, bigAfter, n) ==> Concat(outputs) == WrittenAt(items, smallest, base, n)
    ensures CutRight(items, smallest, base, stopBefore, bigAfter, n + 1, outputs, |outputs|)
  {
    hide Wants, WrittenAt, EndsAt, WantedEnd, Concat;
    EndsHere(outputs);
    var next := n + 1;
    forall f | 0 < f <= |outputs| ensures WantedEnd(items, smallest, base, stopBefore, bigAfter, next, outputs, f) {
      assert WantedEnd(items, smallest, base, stopBefore, bigAfter, n, outputs, f);
      EndOn(items, smallest, base, stopBefore, bigAfter, n, outputs, f);
    }
  }

  /** One point further, where the open file is closed. */
  lemma CutClose(items: seq<Item>, smallest: nat, base: set<Key>, stopBefore: seq<bool>, bigAfter: seq<bool>, n: nat,
                 outputs: seq<seq<Item>>, file: seq<Item>)
    requires |stopBefore| == |bigAfter| == |items| && n < 2 * |items|
    requires CutRight(items, smallest, base, stopBefore, bigAfter, n, outputs, |outputs|)
    requires Wants(items, smallest, base, stopBefore, bigAfter, n) && Concat(outputs + [file]) == WrittenAt(items, smallest, base, n)
    ensures CutRight(items, smallest, base, stopBefore, bigAfter, n + 1, outputs + [file], |outputs + [file]|)
  {
    hide Wants, WrittenAt, EndsAt, WantedEnd, Concat;
    CutLast(items, smallest, base, stopBefore, bigAfter, n, outputs, file);
    var now, next := outputs + [file], n + 1;
    EndsHere(now);
    forall f | 0 < f <= |now| ensures WantedEnd(items, smallest, base, stopBefore, bigAfter, next, now, f) {
      if f <= |outputs| {
        assert WantedEnd(items, smallest, base, stopBefore, bigAfter, n, now, f);
        EndOn(items, smallest, base, stopBefore, bigAfter, n, now, f);
      } else {
        LastEnd(items, smallest, base, stopBefore, bigAfter, n, now);
      }
    }
  }

  lemma EndOn(items: seq<Item>, smallest: nat, base: set<Key>, stopBefore: seq<bool>, bigAfter: seq<bool>, n: nat, outputs: seq<seq<Item>>, f: nat)
    requires |stopBefore| == |bigAfter| == |items| && n < 2 * |items| && f <= |outputs|
    requires WantedEnd(items, smallest, base, stopBefore, bigAfter, n, outputs, f)
    ensures WantedEnd(items, smallest, base, stopBefore, bigAfter, n + 1, outputs, f)
  {
    hide Wants, WrittenAt, Concat;
  }

  lemma LastEnd(items: seq<Item>, smallest: nat, base: set<Key>, stopBefore: seq<bool>, bigAfter: seq<bool>, n: nat, outputs: seq<seq<Item>>)
    requires |stopBefore| == |bigAfter| == |items| && n < 2 * |items| && Wants(items, smallest, base, stopBefore, bigAfter, n)
    requires Concat(outputs) == WrittenAt(items, smallest, base, n)
    ensures WantedEnd(items, smallest, base, stopBefore, bigAfter, n + 1, outputs, |outputs|)
  {
    hide Wants, WrittenAt;
    assert outputs[..|outputs|] == outputs;
  }

  lemma EndsHere(outputs: seq<seq<Item>>)
    ensures EndsAt(outputs, Concat(outputs))
  {
    assert outputs[..|outputs|] == outputs;
  }

  /** What the loop knows of the item before item i, when that one parses. */
  predicate Remembers(items: seq<Item>, i: nat, hasCurrentKey: bool, currentKey: Key, lastSequenceForKey: nat)
    requires i <= |items|
  {
    && hasCurrentKey == (i > 0 && items[i - 1].Parsed?)
    && (hasCurrentKey ==> currentKey == items[i - 1].e.key && lastSequenceForKey == items[i - 1].e.seqno)
  }

  /** The body of the loop up to its decision: whether item i is dropped. */
  method LookAt(items: seq<Item>, i: nat, smallest: nat, base: set<Key>, had: bool, key: Key, last: nat)
    returns (drop: bool, hasCurrentKey: bool, currentKey: Key, lastSequenceForKey: nat)
    requires i < |items| && Remembers(items, i, had, key, last)
    ensures drop <==> Drops(items, i, smallest, base)
    ensures Remembers(items, i + 1, hasCurrentKey, currentKey, lastSequenceForKey)
  {
    drop, hasCurrentKey, currentKey, lastSequenceForKey := false, had, key, last;
    if items[i].BadType? {
      hasCurrentKey, lastSequenceForKey := false, MAX_SEQUENCE;
    } else {
      var e := items[i].e;
      if !hasCurrentKey || e.key != currentKey {
        currentKey, hasCurrentKey := e.key, true;
        lastSequenceForKey := MAX_SEQUENCE;
      }
      assert lastSequenceForKey == LastSequence(items, i);
      if lastSequenceForKey <= smallest {
        drop := true;
      } else if e.op.Delete? && e.seqno <= smallest && e.key in base {
        drop := true;
      }
      lastSequenceForKey := e.seqno;
    }
  }

  /**
   The loop of DoCompactionWork. `stopBefore[i]` and `bigAfter[i]` are the
   answers of ShouldStopBefore and of the file-size test at item `i`;
   `interrupted` is the item at which a shutdown or a file error ends the loop.
   After it, `shutdown` tells of a shutdown seen only then, `closes` that the
   last output file can be finished, `readable` that the iterator has no error.
   */
  method DoCompactionWork(items: seq<Item>, smallest: nat, base: set<Key>,
                          stopBefore: seq<bool>, bigAfter: seq<bool>, interrupted: nat,
                          shutdown: bool, closes: bool, readable: bool)
    returns (ok: bool, outputs: seq<seq<Item>>)
    requires |stopBefore| == |bigAfter| == |items|
    ensures ok <==> |items| <= interrupted && !shutdown && readable
                    && Concat(outputs) == Survivors(items, |items|, smallest, base)
    ensures |items| <= interrupted && !shutdown && closes ==>
              Concat(outputs) == Survivors(items, |items|, smallest, base)
    ensures [] !in outputs
    ensures var done := if interrupted < |items| then interrupted else |items|;
            CutRight(items, smallest, base, stopBefore, bigAfter, 2 * done, outputs, if outputs == [] then 0 else |outputs| - 1)
  {
    outputs := [];
    var builder: seq<Item> := [];           // [] when no output file is open
    var hasCurrentKey, currentKey := false, 0.0;
    var lastSequenceForKey := MAX_SEQUENCE;
    var i := 0;
    assert Remembers(items, 0, hasCurrentKey, currentKey, lastSequenceForKey);
    assert Written(outputs, builder, items, 0, smallest, base);
    hide *;
    CutStart(items, smallest, base, stopBefore, bigAfter);
    while i < |items| && i < interrupted
      invariant 0 <= i <= |items| && (i <= interrupted || i == 0)
      invariant Remembers(items, i, hasCurrentKey, currentKey, lastSequenceForKey)
      invariant Written(outputs, builder, items, i, smallest, base)
      invariant CutRight(items, smallest, base, stopBefore, bigAfter, 2 * i, outputs, |outputs|)
    {
      PointBefore(items, smallest, base, stopBefore, bigAfter, i);
      if stopBefore[i] && builder != [] {
        CloseFile(outputs, builder, items, i, smallest, base);
        CutClose(items, smallest, base, stopBefore, bigAfter, 2 * i, outputs, builder);
        outputs, builder := outputs + [builder], [];
      } else {
        WrittenFiles(outputs, builder, items, i, smallest, base);
        CutStay(items, smallest, base, stopBefore, bigAfter, 2 * i, outputs);
      }
      var drop;
      drop, hasCurrentKey, currentKey, lastSequenceForKey :=
        LookAt(items, i, smallest, base, hasCurrentKey, currentKey, lastSequenceForKey);
      NextItem(outputs, builder, items, i, smallest, base);
      if !drop {
        builder := builder + [items[i]];
      }
      if !drop && bigAfter[i] {
        CloseFile(outputs, builder, items, i + 1, smallest, base);
        CutClose(items, smallest, base, stopBefore, bigAfter, 2 * i + 1, outputs, builder);
        outputs, builder := outputs + [builder], [];
      } else {
        CutStay(items, smallest, base, stopBefore, bigAfter, 2 * i + 1, outputs);
      }
      i := i + 1;
    }
    ok := i == |items| && !shutdown;
    WrittenFiles(outputs, builder, items, i, smallest, base);
    FewerFiles(items, smallest, base, stopBefore, bigAfter, 2 * i, outputs);
    if ok && builder != [] {
      ok := closes;
      if ok {
        CloseFile(outputs, builder, items, i, smallest, base);
        CutLast(items, smallest, base, stopBefore, bigAfter, 2 * i, outputs, builder);
        outputs := outputs + [builder];
      }
    }
    ok := ok && readable;
  }

  /** What is in the closed files and in the open one are the survivors of the first i items. */
  ghost predicate Written(outputs: seq<seq<Item>>, builder: seq<Item>, items: seq<Item>, i: nat, smallest: nat, base: set<Key>) {
    [] !in outputs && i <= |items| && Concat(outputs) + builder == Survivors(items, i, smallest, base)
  }

  lemma WrittenFiles(outputs: seq<seq<Item>>, builder: seq<Item>, items: seq<Item>, i: nat, smallest: nat, base: set<Key>)
    requires Written(outputs, builder, items, i, smallest, base)
    ensures [] !in outputs && i <= |items|
    ensures builder == [] <==> Concat(outputs) == Survivors(items, i, smallest, base)
  {
  }

  lemma CloseFile(outputs: seq<seq<Item>>, builder: seq<Item>, items: seq<Item>, i: nat, smallest: nat, base: set<Key>)
    requires Written(outputs, builder, items, i, smallest, base) && builder != []
    ensures Written(outputs + [builder], [], items, i, smallest, base)
    ensures [] !in outputs + [builder] && Concat(outputs + [builder]) == Survivors(items, i, smallest, base)
  {
    ConcatSnoc(outputs, builder);
  }

  /** One item more, or none. */
  lemma NextItem(outputs: seq<seq<Item>>, builder: seq<Item>, items: seq<Item>, i: nat, smallest: nat, base: set<Key>)
    requires i < |items| && Written(outputs, builder, items, i, smallest, base)
    ensures Written(outputs, if Drops(items, i, smallest, base) then builder else builder + [items[i]], items, i + 1, smallest, base)
  {
  }

  lemma CutStart(items: seq<Item>, smallest: nat, base: set<Key>, stopBefore: seq<bool>, bigAfter: seq<bool>)
    requires |stopBefore| == |bigAfter| == |items|
    ensures CutRight(items, smallest, base, stopBefore, bigAfter, 0, [], 0)
  {
  }

  lemma FewerFiles(items: seq<Item>, smallest: nat, base: set<Key>, stopBefore: seq<bool>, bigAfter: seq<bool>, n: nat, outputs: seq<seq<Item>>)
    requires |stopBefore| == |bigAfter| == |items| && n <= 2 * |items|
    requires CutRight(items, smallest, base, stopBefore, bigAfter, n, outputs, |outputs|)
    ensures CutRight(items, smallest, base, stopBefore, bigAfter, n, outputs, if outputs == [] then 0 else |outputs| - 1)
  {
    hide Wants, WrittenAt, EndsAt, WantedEnd;
  }

  /** The two points of an item. */
  lemma PointBefore(items: seq<Item>, smallest: nat, base: set<Key>, stopBefore: seq<bool>, bigAfter: seq<bool>, k: nat)
    requires |stopBefore| == |bigAfter| == |items| && k < |items|
    ensures Wants(items, smallest, base, stopBefore, bigAfter, 2 * k) <==> stopBefore[k]
    ensures Wants(items, smallest, base, stopBefore, bigAfter, 2 * k + 1) <==> bigAfter[k] && !Drops(items, k, smallest, base)
    ensures WrittenAt(items, smallest, base, 2 * k) == Survivors(items, k, smallest, base)
    ensures WrittenAt(items, smallest, base, 2 * k + 1) == Survivors(items, k + 1, smallest, base)
  {
  }

  /** The keys that do not parse, in order. */
  function ErrorKeys(items: seq<Item>): seq<Item> {
    if items == [] then []
    else ErrorKeys(items[..|items| - 1]) + if items[|items| - 1].BadType? then [items[|items| - 1]] else []
  }

  /** Error keys are not hidden: every one of them is in the output, in order. */
  lemma {:induction false} ErrorKeysKept(items: seq<Item>, n: nat, smallest: nat, base: set<Key>)
    requires n <= |items|
    ensures ErrorKeys(Survivors(items, n, smallest, base)) == ErrorKeys(items[..n])
  {
    if n > 0 {
      ErrorKeysKept(items, n - 1, smallest, base);
      var x, prev := items[n - 1], Survivors(items, n - 1, smallest, base);
      assert items[..n][..n - 1] == items[..n - 1];
      if !Drops(items, n - 1, smallest, base) {
        assert (prev + [x])[..|prev|] == prev;
      } else {
        assert Survivors(items, n, smallest, base) == prev;
      }
    }
  }

  /** The loop drops exactly what the two rules say, on any sorted input. */
  lemma DropsByRule(items: seq<Item>, i: nat, smallest: nat, base: set<Key>)
    requires AllParse(items) && Sorted(items) && i < |items| && smallest < MAX_SEQUENCE
    ensures Drops(items, i, smallest, base) <==> items[i].e !in Kept(Entries(items), smallest, base)
  {
    assert items[i].e in Entries(items);
    LastSequenceHides(items, i, smallest);
  }

  /** last_sequence_for_key is old enough exactly when a newer version hides the entry. */
  lemma LastSequenceHides(items: seq<Item>, i: nat, smallest: nat)
    requires AllParse(items) && Sorted(items) && i < |items| && smallest < MAX_SEQUENCE
    ensures LastSequence(items, i) <= smallest <==> Hidden(Entries(items), items[i].e, smallest)
  {
    var e := items[i].e;
    if Hidden(Entries(items), e, smallest) {
      var f :| f in Entries(items) && f.key == e.key && e.seqno < f.seqno && f.seqno <= smallest;
      var j :| 0 <= j < |items| && items[j].e == f;
      assert !Before(e, f);
      assert j < i;
      assert j == i - 1 || Before(f, items[i - 1].e);
      assert Before(items[i - 1].e, e);
    }
    if LastSequence(items, i) <= smallest {
      assert Before(items[i - 1].e, e);
      assert items[i - 1].e in Entries(items);
    }
  }

  lemma {:induction false} SurvivorsAreKept(items: seq<Item>, n: nat, smallest: nat, base: set<Key>)
    requires AllParse(items) && Sorted(items) && n <= |items| && smallest < MAX_SEQUENCE
    ensures AllParse(Survivors(items, n, smallest, base))
    ensures Entries(Survivors(items, n, smallest, base))
            == set i | 0 <= i < n && items[i].e in Kept(Entries(items), smallest, base) :: items[i].e
    ensures forall x :: x in Survivors(items, n, smallest, base) ==> exists j :: 0 <= j < n && items[j] == x
    ensures Sorted(Survivors(items, n, smallest, base))
  {
    if n > 0 {
      SurvivorsAreKept(items, n - 1, smallest, base);
      DropsByRule(items, n - 1, smallest, base);
      var prev, now := Survivors(items, n - 1, smallest, base), Survivors(items, n, smallest, base);
      if !Drops(items, n - 1, smallest, base) {
        assert now == prev + [items[n - 1]];
        forall x | x in Entries(now) ensures x in Entries(prev) + {items[n - 1].e} {
          var m :| 0 <= m < |now| && now[m].e == x;
          if m < |prev| { assert prev[m].e == x; }
        }
        assert Entries(now) == Entries(prev) + {items[n - 1].e} by {
          assert now[|prev|].e in Entries(now);
          forall x | x in Entries(prev) ensures x in Entries(now) {
            var m :| 0 <= m < |prev| && prev[m].e == x;
            assert now[m].e == x;
          }
        }
        forall p | 0 <= p < |prev| ensures Before(now[p].e, items[n - 1].e) {
          assert prev[p] in prev;
        }
      } else {
        assert now == prev;
      }
    }
  }

  // ----------------------------------------------- keys that do not parse

  /** A value that is looked at right after a key that does not parse. */
  predicate Resurfaces(items: seq<Item>, j: nat) {
    0 < j < |items| && items[j].Parsed? && items[j].e.op.Put? && items[j - 1].BadType?
  }

  /** The tombstone at `i` is dropped, is what readers saw, and a value of its key resurfaces at `j`. */
  ghost predicate Exposes(items: seq<Item>, rest: set<Entry>, smallest: nat, base: set<Key>, i: nat, j: nat) {
    && i < j < |items| && items[i].Parsed? && Resurfaces(items, j) && items[j].e.key == items[i].e.key
    && ObsoleteTombstone(items[i].e, smallest, base)
    && Newest(rest + Entries(items), items[i].e.key, smallest, items[i].e)
  }

  lemma {:induction false} SurvivorsAre(items: seq<Item>, n: nat, smallest: nat, base: set<Key>)
    requires n <= |items|
    ensures Entries(Survivors(items, n, smallest, base))
            == set i | 0 <= i < n && items[i].Parsed? && !Drops(items, i, smallest, base) :: items[i].e
  {
    var now := Survivors(items, n, smallest, base);
    if n > 0 {
      SurvivorsAre(items, n - 1, smallest, base);
      var prev := Survivors(items, n - 1, smallest, base);
      if Drops(items, n - 1, smallest, base) {
        assert now == prev;
      } else {
        EntriesSnoc(prev, items[n - 1]);
      }
    }
  }

  lemma EntriesSnoc(items: seq<Item>, x: Item)
    ensures Entries(items + [x]) == Entries(items) + if x.Parsed? then {x.e} else {}
  {
    var more := items + [x];
    assert more[|items|] == x;
    forall i | 0 <= i < |items| ensures more[i] == items[i] {}
    forall e | e in Entries(items) ensures e in Entries(more) {
      var i :| 0 <= i < |items| && items[i].Parsed? && items[i].e == e;
      assert more[i].e == e;
    }
    if x.Parsed? { assert more[|items|].e in Entries(more); }
  }

  /** Whatever fails to parse, the loop drops only hidden versions and obsolete tombstones. */
  lemma SurvivorsDropLike(items: seq<Item>, smallest: nat, base: set<Key>)
    requires Sorted(items) && smallest < MAX_SEQUENCE
    ensures DropsLike(Entries(items), Entries(Survivors(items, |items|, smallest, base)), smallest, base)
  {
    SurvivorsAre(items, |items|, smallest, base);
    forall e | e in Entries(items) && e !in Entries(Survivors(items, |items|, smallest, base))
      ensures Hidden(Entries(items), e, smallest) || ObsoleteTombstone(e, smallest, base)
    {
      var i :| 0 <= i < |items| && items[i].Parsed? && items[i].e == e;
      if LastSequence(items, i) <= smallest {
        assert items[i - 1].e in Entries(items) && Before(items[i - 1].e, e);
      }
    }
  }

  /** Behind a dropped tombstone, a value survives only right after a key that does not parse. */
  lemma SurvivesBehind(items: seq<Item>, smallest: nat, base: set<Key>, i: nat, j: nat)
    requires Sorted(items) && smallest < MAX_SEQUENCE && i < |items| && j < |items|
    requires items[i].Parsed? && items[j].Parsed? && ObsoleteTombstone(items[i].e, smallest, base)
    requires items[j].e.key == items[i].e.key && items[j].e.seqno < items[i].e.seqno
    ensures i < j && (!Drops(items, j, smallest, base) <==> Resurfaces(items, j))
  {
    assert i < j;
    var p := items[j - 1];
    if p.Parsed? {
      assert i == j - 1 || Before(items[i].e, p.e);
      assert Before(p.e, items[j].e);
      assert LastSequence(items, j) <= smallest;
    }
  }

  /**
   The whole result, for every sorted stream: output over the rest reads as
   input over the rest at every sequence from the oldest snapshot on, if and
   only if no dropped tombstone uncovers a value, be it one outside the
   compaction or one that survives because a key that does not parse stands
   before it.
   */
  lemma CompactionReadsIff(items: seq<Item>, rest: set<Entry>, smallest: nat, base: set<Key>)
    requires Sorted(items) && smallest < MAX_SEQUENCE && UniqueSeq(rest + Entries(items))
    ensures SameReads(rest + Entries(Survivors(items, |items|, smallest, base)), rest + Entries(items), smallest)
            <==> forall e, f :: !Uncovers(rest + Entries(items), rest + Resurfacing(items), Entries(items), smallest, base, e, f)
  {
    var inputs, kept := Entries(items), Entries(Survivors(items, |items|, smallest, base));
    var all := rest + inputs;
    SurvivorsDropLike(items, smallest, base);
    DropIff(rest, inputs, kept, smallest, base);
    forall e | e in inputs && ObsoleteTombstone(e, smallest, base) && Newest(all, e.key, smallest, e)
      ensures forall g: Entry :: g.key == e.key && g.seqno <= smallest ==> (g in kept <==> g in Resurfacing(items))
    {
      KeptBehind(items, smallest, base, e);
    }
    forall e, f ensures Uncovers(all, rest + kept, inputs, smallest, base, e, f)
                        <==> Uncovers(all, rest + Resurfacing(items), inputs, smallest, base, e, f) {
    }
  }

  function Resurfacing(items: seq<Item>): set<Entry> {
    set j | 0 <= j < |items| && Resurfaces(items, j) :: items[j].e
  }

  lemma KeptBehind(items: seq<Item>, smallest: nat, base: set<Key>, e: Entry)
    requires Sorted(items) && smallest < MAX_SEQUENCE && UniqueSeq(Entries(items))
    requires e in Entries(items) && ObsoleteTombstone(e, smallest, base) && Newest(Entries(items), e.key, smallest, e)
    ensures forall g: Entry :: g.key == e.key && g.seqno <= smallest ==>
              (g in Entries(Survivors(items, |items|, smallest, base)) <==> g in Resurfacing(items))
  {
    SurvivorsAre(items, |items|, smallest, base);
    var i :| 0 <= i < |items| && items[i].Parsed? && items[i].e == e;
    forall j | 0 <= j < |items| && items[j].Parsed? && items[j].e.key == e.key && items[j].e.seqno <= smallest
      ensures !Drops(items, j, smallest, base) <==> Resurfaces(items, j)
    {
      assert items[j].e in Entries(items);
      if items[j].e.seqno < e.seqno {
        SurvivesBehind(items, smallest, base, i, j);
      } else {
        assert items[j].e == e;
      }
    }
  }

  /** On a stream that parses nothing resurfaces: only what lies outside can be uncovered. */
  lemma CompactionPreservesReads(items: seq<Item>, rest: set<Entry>, smallest: nat, base: set<Key>)
    requires AllParse(items) && Sorted(items) && smallest < MAX_SEQUENCE && UniqueSeq(rest + Entries(items))
    ensures SameReads(rest + Entries(Survivors(items, |items|, smallest, base)), rest + Entries(items), smallest)
            <==> Covered(rest, Entries(items), smallest, base)
  {
    CompactionReadsIff(items, rest, smallest, base);
    assert rest + Resurfacing(items) == rest;
  }

  /**
   Where all that lies outside of a base-level key is newer, a stream with keys
   that do not parse is compacted faithfully if and only if no dropped
   tombstone, itself the newest version of its key that is old enough, is
   followed by a value of its key whose preceding item does not parse.
   */
  lemma UnparsableIff(items: seq<Item>, rest: set<Entry>, smallest: nat, base: set<Key>)
    requires Sorted(items) && smallest < MAX_SEQUENCE && UniqueSeq(rest + Entries(items))
    requires forall e, f :: e in Entries(items) && f in rest && e.key == f.key && e.key in base ==> e.seqno < f.seqno
    ensures SameReads(rest + Entries(Survivors(items, |items|, smallest, base)), rest + Entries(items), smallest)
            <==> forall i: nat, j: nat :: !Exposes(items, rest, smallest, base, i, j)
  {
    var inputs, left := Entries(items), rest + Resurfacing(items);
    var all := rest + inputs;
    CompactionReadsIff(items, rest, smallest, base);
    if e, f :| Uncovers(all, left, inputs, smallest, base, e, f) {
      assert f in all && f.seqno < e.seqno;
      var i :| 0 <= i < |items| && items[i].Parsed? && items[i].e == e;
      var j :| 0 <= j < |items| && Resurfaces(items, j) && items[j].e == f;
      SurvivesBehind(items, smallest, base, i, j);
      assert Exposes(items, rest, smallest, base, i, j);
    }
    if i: nat, j: nat :| Exposes(items, rest, smallest, base, i, j) {
      ExposedUncovers(items, rest, smallest, base, i, j);
    }
  }

  lemma ExposedUncovers(items: seq<Item>, rest: set<Entry>, smallest: nat, base: set<Key>, i: nat, j: nat)
    requires Sorted(items) && UniqueSeq(rest + Entries(items)) && Exposes(items, rest, smallest, base, i, j)
    requires forall e, f :: e in Entries(items) && f in rest && e.key == f.key && e.key in base ==> e.seqno < f.seqno
    ensures exists f :: Uncovers(rest + Entries(items), rest + Resurfacing(items), Entries(items), smallest, base, items[i].e, f)
  {
    var all, left, e := rest + Entries(items), rest + Resurfacing(items), items[i].e;
    assert Before(e, items[j].e) && items[j].e in Resurfacing(items) && e in Entries(items);
    assert Visible(left, e.key, smallest);
    NewestExists(left, e.key, smallest);
    var f :| Newest(left, e.key, smallest, f);
    assert Resurfacing(items) <= Entries(items);
    assert f in all && f.seqno <= e.seqno;
    assert f !in rest;
    assert Uncovers(all, left, Entries(items), smallest, base, e, f);
  }

  /** The order of the stream itself: user key, then decreasing number and type byte. */
  predicate InternalOrder(items: seq<Item>) {
    forall i, j :: 0 <= i < j < |items| ==>
      || KeyOf(items[i]) < KeyOf(items[j])
      || (KeyOf(items[i]) == KeyOf(items[j]) && TagOf(items[j]) < TagOf(items[i]))
  }

  function KeyOf(x: Item): Key { if x.Parsed? then x.e.key else x.key }

  function TagOf(x: Item): nat {
    match x
    case Parsed(e) => 256 * e.seqno + if e.op.Put? then 1 else 0
    case BadType(_, seqno, kind) => 256 * seqno + kind
  }

  /**
   At the largest sequence number the start value of last_sequence_for_key is
   itself "old enough", and the loop drops everything: the bound on the oldest
   snapshot cannot be left out.
   */
  lemma {:induction false} LastSequenceExhausted(items: seq<Item>, n: nat, base: set<Key>)
    requires AllParse(items) && n <= |items|
    requires forall i :: 0 <= i < |items| ==> items[i].e.seqno <= MAX_SEQUENCE
    ensures Survivors(items, n, MAX_SEQUENCE, base) == []
  {
    if n > 0 { LastSequenceExhausted(items, n - 1, base); }
  }

  /**
   It does happen, in a stream in the order of the internal comparator: a key
   with an unknown type byte between a tombstone and the value it deletes.
   */
  lemma UnparsableKeyUncovers(gone: Entry, buried: Entry, items: seq<Item>)
    requires gone == Entry(0.0, 3, Delete) && buried == Entry(0.0, 1, Put([7]))
    requires items == [Parsed(gone), BadType(0.0, 2, 9), Parsed(buried)]
    ensures InternalOrder(items) && Sorted(items) && UniqueSeq({} + Entries(items)) && Exposes(items, {}, 3, {0.0}, 0, 2)
    ensures !SameReads({} + Entries(Survivors(items, |items|, 3, {0.0})), {} + Entries(items), 3)
  {
    hide SameReads;
    var base: set<Key> := {0.0};
    assert items[0].e == gone && items[2].e == buried;
    assert Entries(items) == {gone, buried} by {
      assert items[0].e in Entries(items) && items[2].e in Entries(items);
    }
    assert {} + Entries(items) == {gone, buried};
    assert Newest({} + Entries(items), 0.0, 3, gone);
    assert Exposes(items, {}, 3, base, 0, 2);
    UnparsableIff(items, {}, 3, base);
  }
}
