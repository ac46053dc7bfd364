/**
 version_set.cc: finding files by key, the level a flushed memtable may go to,
 and the files a compaction picks. What the rest of the engine's model asks of
 the version set is proved here of its code.
 */
module Picker {
  import opened Bytes
  import opened Versions
  import opened Compaction
  import opened Levels

  /** FileMetaData: a table with its size and its first and last entry. */
  datatype File = File(table: Table, size: nat, smallest: Entry, largest: Entry)

  ghost predicate Bounds(f: File) {
    && f.smallest in f.table.entries && f.largest in f.table.entries
    && (forall e :: e in f.table.entries ==> !Before(e, f.smallest) && !Before(f.largest, e) && e.seqno <= MAX_SEQUENCE)
  }

  ghost predicate AllBounds(files: seq<File>) { forall f :: f in files ==> Bounds(f) }

  /** The files of a level below 0: in order, without overlap. */
  ghost predicate Arranged(files: seq<File>) {
    AllBounds(files) && forall i, j :: 0 <= i < j < |files| ==> Before(files[i].largest, files[j].smallest)
  }

  predicate Touches(f: File, lo: Key, hi: Key) { lo <= f.largest.key && f.smallest.key <= hi }

  ghost function TablesOf(files: seq<File>): set<Table> { set f | f in files :: f.table }

  // ------------------------------------------------------------ finding files

  /** All of f comes before the lookup key (k, t). */
  predicate Past(f: File, k: Key, t: nat) { f.largest.key < k || (f.largest.key == k && f.largest.seqno > t) }

  lemma PastOrder(files: seq<File>, i: nat, j: nat, k: Key, t: nat)
    requires Arranged(files) && i <= j < |files| && Past(files[j], k, t)
    ensures Past(files[i], k, t)
  {
    if i < j {
      assert Bounds(files[j]);
      assert Before(files[i].largest, files[j].smallest) && !Before(files[j].largest, files[j].smallest);
    }
  }

  /** FindFile: the first file whose last key is at or after (k, t). */
  method FindFile(files: seq<File>, k: Key, t: nat) returns (r: nat)
    requires Arranged(files)
    ensures r <= |files|
    ensures forall i :: 0 <= i < r ==> Past(files[i], k, t)
    ensures forall i :: r <= i < |files| ==> !Past(files[i], k, t)
  {
    hide Past, Arranged;
    var left, right := 0, |files|;
    while left < right
      invariant 0 <= left <= right <= |files|
      invariant forall i :: 0 <= i < left ==> Past(files[i], k, t)
      invariant forall i :: right <= i < |files| ==> !Past(files[i], k, t)
    {
      var mid := (left + right) / 2;
      if Past(files[mid], k, t) {
        forall i | 0 <= i <= mid ensures Past(files[i], k, t) { PastOrder(files, i, mid, k, t); }
        left := mid + 1;
      } else {
        forall i | mid <= i < |files| ensures !Past(files[i], k, t) {
          if Past(files[i], k, t) { PastOrder(files, mid, i, k, t); }
        }
        right := mid;
      }
    }
    r := right;
  }

  /** Nothing outside the file found shows a version that the file found does not beat. */
  lemma FoundFirst(files: seq<File>, k: Key, t: nat, r: nat, i: nat, e: Entry)
    requires Arranged(files) && r <= |files| && i < |files| && e in files[i].table.entries && e.key == k && e.seqno <= t
    requires forall x :: 0 <= x < r ==> Past(files[x], k, t)
    requires forall x :: r <= x < |files| ==> !Past(files[x], k, t)
    ensures r < |files| && r <= i && files[r].smallest.key <= k
    ensures i != r ==> files[r].largest.key == k && e.seqno < files[r].largest.seqno <= t
  {
    assert Bounds(files[i]) && !Before(files[i].largest, e) && !Before(e, files[i].smallest);
    assert !Past(files[i], k, t);
    assert r <= i && Bounds(files[r]);
    if r < i { assert Before(files[r].largest, files[i].smallest); }
    assert !Before(files[r].largest, files[r].smallest);
  }

  /**
   Version::Get opens one file of each level below 0: in a level whose files
   are in order, that file decides what a search of the whole level finds.
   */
  lemma FoundDecides(files: seq<File>, k: Key, t: nat, r: nat)
    requires Arranged(files) && r <= |files| && UniqueSeq(EntriesOf(TablesOf(files)))
    requires forall x :: 0 <= x < r ==> Past(files[x], k, t)
    requires forall x :: r <= x < |files| ==> !Past(files[x], k, t)
    ensures Latest(EntriesOf(TablesOf(files)), k, t) ==
            if r < |files| && files[r].smallest.key <= k then Latest(files[r].table.entries, k, t) else None
  {
    var all := EntriesOf(TablesOf(files));
    LatestNone(all, k, t);
    forall e | e in all && e.key == k && e.seqno <= t
      ensures r < |files| && files[r].smallest.key <= k
      ensures e in files[r].table.entries || (files[r].largest.key == k && e.seqno < files[r].largest.seqno <= t)
    {
      var x :| x in TablesOf(files) && e in x.entries;
      var f :| f in files && f.table == x;
      var i :| 0 <= i < |files| && files[i] == f;
      hide Past, Arranged;
      FoundFirst(files, k, t, r, i, e);
    }
    if r < |files| && files[r].smallest.key <= k {
      assert files[r] in files && files[r].table in TablesOf(files);
      assert Bounds(files[r]);
      var mine := files[r].table.entries;
      assert mine <= all;
      hide Arranged, Past, EntriesOf, TablesOf;
      LatestNone(mine, k, t);
      if Visible(mine, k, t) {
        NewestExists(mine, k, t);
        var e :| Newest(mine, k, t, e);
        assert Newest(all, k, t, e);
        LatestIs(all, k, t, e);
        LatestIs(mine, k, t, e);
      }
    }
  }

  /** SomeFileOverlapsRange, by scanning level 0 and by searching the others. */
  method SomeFileOverlapsRange(sorted: bool, files: seq<File>, lo: Key, hi: Key) returns (r: bool)
    requires AllBounds(files) && (sorted ==> Arranged(files))
    ensures r <==> exists i :: 0 <= i < |files| && Touches(files[i], lo, hi)
  {
    if !sorted {
      for i := 0 to |files|
        invariant forall x :: 0 <= x < i ==> !Touches(files[x], lo, hi)
      {
        if lo > files[i].largest.key || hi < files[i].smallest.key {
        } else {
          return true;
        }
      }
      return false;
    }
    var index := FindFile(files, lo, MAX_SEQUENCE);
    forall i | 0 <= i < |files| ensures Past(files[i], lo, MAX_SEQUENCE) <==> files[i].largest.key < lo {
      assert files[i] in files && Bounds(files[i]);
    }
    if index >= |files| { return false; }
    r := !(hi < files[index].smallest.key);
    if !r {
      forall i | 0 <= i < |files| ensures !Touches(files[i], lo, hi) {
        if index < i {
          assert files[index] in files && Bounds(files[index]);
          assert Before(files[index].largest, files[i].smallest) && !Before(files[index].largest, files[index].smallest);
        }
      }
    }
  }

  // --------------------------------------------------------- overlapping files

  function Touching(files: seq<File>, lo: Key, hi: Key): (r: seq<File>)
    ensures forall f :: f in r <==> f in files && Touches(f, lo, hi)
  {
    if files == [] then []
    else
      var init, last := files[..|files| - 1], files[|files| - 1];
      assert files == init + [last];
      Touching(init, lo, hi) + if Touches(last, lo, hi) then [last] else []
  }

  lemma TouchingMore(files: seq<File>, i: nat, lo: Key, hi: Key)
    requires i < |files|
    ensures Touching(files[..i + 1], lo, hi) == Touching(files[..i], lo, hi) + if Touches(files[i], lo, hi) then [files[i]] else []
  {
    assert files[..i + 1][..i] == files[..i];
  }

  /** The file bounds outside of [lo, hi]: what may still widen the range. */
  function Outside(files: seq<File>, lo: Key, hi: Key): set<(nat, bool)> {
    (set i | 0 <= i < |files| && files[i].smallest.key < lo :: (i, false))
    + (set i | 0 <= i < |files| && hi < files[i].largest.key :: (i, true))
  }

  predicate Holds(f: File, x: Key) { f.smallest.key <= x <= f.largest.key }

  /** [lo, hi] is [begin, end] widened by files that leave no gap. */
  ghost predicate Widened(files: seq<File>, begin: Key, end: Key, lo: Key, hi: Key) {
    && lo <= begin && end <= hi
    && forall x :: lo <= x <= hi ==> begin <= x <= end || SomeHolds(files, x)
  }

  ghost predicate SomeHolds(files: seq<File>, x: Key) { exists f :: f in files && Holds(f, x) }

  lemma WidenMore(files: seq<File>, begin: Key, end: Key, lo: Key, hi: Key, f: File, lo': Key, hi': Key)
    requires Widened(files, begin, end, lo, hi) && f in files && Touches(f, lo, hi)
    requires lo' == (if f.smallest.key < lo then f.smallest.key else lo) || lo' == lo
    requires hi' == (if hi < f.largest.key then f.largest.key else hi) || hi' == hi
    ensures Widened(files, begin, end, lo', hi')
  {
    forall x | lo' <= x <= hi' ensures begin <= x <= end || SomeHolds(files, x) {
      assert lo <= x <= hi || Holds(f, x);
    }
  }

  /**
   Version::GetOverlappingInputs: the files that touch the range, which in
   level 0 is widened until none of them sticks out of it.
   */
  method GetOverlappingInputs(level: nat, files: seq<File>, begin: Key, end: Key)
    returns (inputs: seq<File>, ghost lo: Key, ghost hi: Key)
    requires AllBounds(files)
    ensures inputs == Touching(files, lo, hi) && Widened(files, begin, end, lo, hi)
    ensures level > 0 ==> lo == begin && hi == end
    ensures level == 0 ==> forall f :: f in inputs ==> lo <= f.smallest.key && f.largest.key <= hi
  {
    inputs := [];
    var userBegin, userEnd, i := begin, end, 0;
    while i < |files|
      invariant 0 <= i <= |files|
      invariant inputs == Touching(files[..i], userBegin, userEnd) && Widened(files, begin, end, userBegin, userEnd)
      invariant level > 0 ==> userBegin == begin && userEnd == end
      invariant level == 0 ==> forall f :: f in inputs ==> userBegin <= f.smallest.key && f.largest.key <= userEnd
      decreases Outside(files, userBegin, userEnd), |files| - i
    {
      var f := files[i];
      TouchingMore(files, i, userBegin, userEnd);
      i := i + 1;
      if f.largest.key < userBegin {
      } else if f.smallest.key > userEnd {
      } else {
        inputs := inputs + [f];
        if level == 0 {
          if f.smallest.key < userBegin {
            assert (i - 1, false) in Outside(files, userBegin, userEnd) && (i - 1, false) !in Outside(files, f.smallest.key, userEnd);
            WidenMore(files, begin, end, userBegin, userEnd, f, f.smallest.key, userEnd);
            userBegin, inputs, i := f.smallest.key, [], 0;
          } else if f.largest.key > userEnd {
            assert (i - 1, true) in Outside(files, userBegin, userEnd) && (i - 1, true) !in Outside(files, userBegin, f.largest.key);
            WidenMore(files, begin, end, userBegin, userEnd, f, userBegin, f.largest.key);
            userEnd, inputs, i := f.largest.key, [], 0;
          }
        }
      }
    }
    assert files[..|files|] == files;
    lo, hi := userBegin, userEnd;
  }

  function SizeOf(files: seq<File>): nat {
    if files == [] then 0 else SizeOf(files[..|files| - 1]) + files[|files| - 1].size
  }

  method TotalFileSize(files: seq<File>) returns (sum: nat)
    ensures sum == SizeOf(files)
  {
    sum := 0;
    for i := 0 to |files|
      invariant sum == SizeOf(files[..i])
    {
      assert files[..i + 1][..i] == files[..i];
      sum := sum + files[i].size;
    }
    assert files[..|files|] == files;
  }

  /** Some file of the level touches the range. */
  predicate SomeTouches(files: seq<File>, lo: Key, hi: Key) { exists f :: f in files && Touches(f, lo, hi) }

  /** Going on from `level` would put the memtable among files, or above too much of the level after the next. */
  predicate Stops(levels: seq<seq<File>>, level: nat, lo: Key, hi: Key, maxOverlap: nat)
    requires level + 2 < |levels|
  {
    SomeTouches(levels[level + 1], lo, hi) || SizeOf(Touching(levels[level + 2], lo, hi)) > maxOverlap
  }

  /**
   Version::PickLevelForMemTableOutput: as deep as level 2, but level 0 if one
   of its files touches the memtable's range, and no deeper than the first level
   from which going on is not allowed.
   */
  method PickLevelForMemTableOutput(levels: seq<seq<File>>, lo: Key, hi: Key, maxOverlap: nat) returns (level: nat)
    requires |levels| == DEEP_LEVELS + 1 && AllBounds(levels[0]) && forall l :: 0 < l < |levels| ==> Arranged(levels[l])
    ensures level <= MAX_MEM_COMPACT_LEVEL
    ensures level > 0 ==> forall l, f :: 0 <= l <= level && f in levels[l] ==> !Touches(f, lo, hi)
    ensures SomeTouches(levels[0], lo, hi) ==> level == 0
    ensures forall l: nat :: l < level ==> !Stops(levels, l, lo, hi, maxOverlap)
    ensures level < MAX_MEM_COMPACT_LEVEL ==> SomeTouches(levels[0], lo, hi) || Stops(levels, level, lo, hi, maxOverlap)
  {
    level := 0;
    var overlap := SomeFileOverlapsRange(false, levels[0], lo, hi);
    if overlap { return; }
    while level < MAX_MEM_COMPACT_LEVEL
      invariant level <= MAX_MEM_COMPACT_LEVEL
      invariant forall l, f :: 0 <= l <= level && f in levels[l] ==> !Touches(f, lo, hi)
      invariant forall l: nat :: l < level ==> !Stops(levels, l, lo, hi, maxOverlap)
    {
      overlap := SomeFileOverlapsRange(true, levels[level + 1], lo, hi);
      if overlap { return; }
      if level + 2 < |levels| {
        var overlaps, _, _ := GetOverlappingInputs(level + 2, levels[level + 2], lo, hi);
        var sum := TotalFileSize(overlaps);
        if sum > maxOverlap { return; }
      }
      level := level + 1;
    }
  }

  // ------------------------------------------------------------ boundary files

  ghost predicate Sub(picks: seq<File>, files: seq<File>) { forall f :: f in picks ==> f in files }

  ghost predicate IsLargest(picks: seq<File>, last: Entry) {
    (exists f :: f in picks && f.largest == last) && forall f :: f in picks ==> !Before(last, f.largest)
  }

  /** f goes on with the user key at which `last` ends. */
  predicate IsBoundary(f: File, last: Entry) { Before(last, f.smallest) && f.smallest.key == last.key }

  /** What lies between two picked files is picked. */
  ghost predicate Convex(files: seq<File>, picks: seq<File>) {
    forall i, j, k :: 0 <= i < j < k < |files| && files[i] in picks && files[k] in picks ==> files[j] in picks
  }

  method FindLargestKey(files: seq<File>) returns (last: Entry)
    requires files != []
    ensures IsLargest(files, last)
  {
    last := files[0].largest;
    for i := 1 to |files|
      invariant exists f :: f in files && f.largest == last
      invariant forall x :: 0 <= x < i ==> !Before(last, files[x].largest)
    {
      if Before(last, files[i].largest) { last := files[i].largest; }
    }
  }

  method FindSmallestBoundaryFile(files: seq<File>, last: Entry) returns (r: Option<File>)
    ensures r.None? ==> forall f :: f in files ==> !IsBoundary(f, last)
    ensures r.Some? ==> r.value in files && IsBoundary(r.value, last)
    ensures r.Some? ==> forall f :: f in files && IsBoundary(f, last) ==> !Before(f.smallest, r.value.smallest)
  {
    r := None;
    for i := 0 to |files|
      invariant r.None? ==> forall x :: 0 <= x < i ==> !IsBoundary(files[x], last)
      invariant r.Some? ==> r.value in files && IsBoundary(r.value, last)
      invariant r.Some? ==> forall x :: 0 <= x < i && IsBoundary(files[x], last) ==> !Before(files[x].smallest, r.value.smallest)
    {
      var f := files[i];
      if Before(last, f.smallest) && f.smallest.key == last.key {
        if r.None? || Before(f.smallest, r.value.smallest) { r := Some(f); }
      }
    }
  }

  function Later(files: seq<File>, last: Entry): set<nat> {
    set i | 0 <= i < |files| && Before(last, files[i].smallest)
  }

  lemma BoundaryNext(files: seq<File>, picks: seq<File>, last: Entry, f: File)
    requires Arranged(files) && Sub(picks, files) && Convex(files, picks) && IsLargest(picks, last)
    requires f in files && IsBoundary(f, last)
    requires forall g :: g in files && IsBoundary(g, last) ==> !Before(g.smallest, f.smallest)
    ensures Convex(files, picks + [f])
  {
    var more := picks + [f];
    var top :| top in picks && top.largest == last;
    forall i, j, k | 0 <= i < j < k < |files| && files[i] in more && files[k] in more ensures files[j] in more {
      if !(files[i] in picks && files[k] in picks) {
        BetweenBoundary(files, picks, last, top, f, i, j, k);
      }
    }
  }

  /** No file fits between the last one picked and the one that goes on with its key. */
  lemma BetweenBoundary(files: seq<File>, picks: seq<File>, last: Entry, top: File, f: File, i: nat, j: nat, k: nat)
    requires Arranged(files) && Sub(picks, files) && Convex(files, picks) && IsLargest(picks, last)
    requires top in picks && top.largest == last && f in files && IsBoundary(f, last)
    requires forall g :: g in files && IsBoundary(g, last) ==> !Before(g.smallest, f.smallest)
    requires i < j < k < |files| && (files[i] in picks || files[i] == f) && (files[k] in picks || files[k] == f)
    requires files[i] == f || files[k] == f
    ensures files[j] in picks || files[j] == f
  {
    var x :| 0 <= x < |files| && files[x] == top;
    if files[i] == f {
      InOrder(files, i, k);
      TopLast(files, picks, last, f, i, k);
      assert false;
    } else if j > x {
      StandsBetween(files, last, x, j, k);
      assert false;
    } else {
      assert files[i] in picks && files[x] in picks;
    }
  }

  lemma TopLast(files: seq<File>, picks: seq<File>, last: Entry, f: File, i: nat, k: nat)
    requires Arranged(files) && IsLargest(picks, last) && IsBoundary(f, last)
    requires i < k < |files| && files[i] == f
    ensures files[k] !in picks && files[k] != f
  {
    InOrder(files, i, k);
    assert files[i] in files && Bounds(files[i]);
  }

  lemma StandsBetween(files: seq<File>, last: Entry, x: nat, j: nat, k: nat)
    requires Arranged(files) && x < j < k < |files| && files[x].largest == last && IsBoundary(files[k], last)
    ensures IsBoundary(files[j], last) && Before(files[j].smallest, files[k].smallest)
  {
    InOrder(files, x, j);
    InOrder(files, j, k);
  }

  lemma InOrder(files: seq<File>, i: nat, j: nat)
    requires Arranged(files) && i < j < |files|
    ensures Before(files[i].largest, files[j].smallest) && Before(files[i].smallest, files[j].smallest) && Before(files[i].largest, files[j].largest)
  {
    assert files[i] in files && files[j] in files && Bounds(files[i]) && Bounds(files[j]);
  }

  /** How far AddBoundaryInputs has come: `extra` has been added to `picks`, and to the `whole` they are part of. */
  ghost predicate Bounding(files: seq<File>, picks: seq<File>, extra: seq<File>, last: Entry, whole: seq<File>, lo: Key, hi: Key) {
    && Sub(picks + extra, files) && IsLargest(picks + extra, last) && Joined(whole + extra, lo, hi)
    && (Arranged(files) && Convex(files, picks) ==> Convex(files, picks + extra))
    && (extra != [] ==> extra[0] in files && extra[0] !in picks && exists first :: IsLargest(picks, first) && extra[0].smallest.key == first.key)
  }

  lemma BoundingMore(files: seq<File>, picks: seq<File>, extra: seq<File>, last: Entry, whole: seq<File>, lo: Key, hi: Key, f: File)
    returns (hi': Key)
    requires AllBounds(files) && Sub(picks, whole) && Bounding(files, picks, extra, last, whole, lo, hi)
    requires f in files && IsBoundary(f, last)
    requires forall g :: g in files && IsBoundary(g, last) ==> !Before(g.smallest, f.smallest)
    ensures Bounding(files, picks, extra + [f], f.largest, whole, lo, hi')
  {
    assert picks + (extra + [f]) == (picks + extra) + [f] && whole + (extra + [f]) == (whole + extra) + [f];
    assert Bounds(f);
    assert AllBounds(picks + extra) && Sub(picks + extra, whole + extra);
    hide Joined;
    if Arranged(files) && Convex(files, picks) { BoundaryNext(files, picks + extra, last, f); }
    JoinBoundary(picks + extra, whole + extra, lo, hi, last, f);
    hi' := if hi < f.largest.key then f.largest.key else hi;
    NewLargest(picks + extra, last, f);
    hide Convex, Arranged, AllBounds;
    if extra == [] {
      assert picks + extra == picks;
      assert f !in picks by { if f in picks { LargestBounds(picks, last, f); } }
    }
  }

  lemma LargestBounds(picks: seq<File>, last: Entry, f: File)
    requires IsLargest(picks, last) && Bounds(f) && IsBoundary(f, last)
    ensures f !in picks
  {
  }

  lemma NewLargest(picks: seq<File>, last: Entry, f: File)
    requires IsLargest(picks, last) && Bounds(f) && IsBoundary(f, last)
    ensures IsLargest(picks + [f], f.largest)
  {
    var more := picks + [f];
    assert f in more;
    forall g | g in more ensures !Before(f.largest, g.largest) { assert g == f || g in picks; }
  }

  lemma JoinBoundary(picks: seq<File>, whole: seq<File>, lo: Key, hi: Key, last: Entry, f: File)
    requires AllBounds(picks) && Sub(picks, whole) && Joined(whole, lo, hi) && IsLargest(picks, last)
    requires Bounds(f) && f.smallest.key == last.key
    ensures Joined(whole + [f], lo, if hi < f.largest.key then f.largest.key else hi)
  {
    var top :| top in picks && top.largest == last;
    assert lo <= top.smallest.key && top.largest.key <= hi && Bounds(top);
    JoinMore(whole, lo, hi, f);
  }

  /** AddBoundaryInputs: until no file goes on with the key at which the picks end. */
  method AddBoundaryInputs(files: seq<File>, picks: seq<File>, ghost whole: seq<File>, ghost lo: Key, ghost hi: Key)
    returns (r: seq<File>, ghost extra: seq<File>, ghost last: Entry, ghost hi': Key)
    requires AllBounds(files) && picks != [] && Sub(picks, files) && Sub(picks, whole) && Joined(whole, lo, hi)
    ensures r == picks + extra && Bounding(files, picks, extra, last, whole, lo, hi')
    ensures forall f :: f in files ==> !IsBoundary(f, last)
  {
    var largest := FindLargestKey(picks);
    r, extra, hi' := picks, [], hi;
    assert picks + extra == picks && whole + extra == whole;
    var searching := true;
    hide Bounding, IsLargest, Joined, Sub, IsBoundary, AllBounds, Bounds;
    assert Bounding(files, picks, extra, largest, whole, lo, hi') by { BoundingStarts(files, picks, largest, whole, lo, hi); }
    while searching
      invariant r == picks + extra && Bounding(files, picks, extra, largest, whole, lo, hi')
      invariant !searching ==> forall f :: f in files ==> !IsBoundary(f, largest)
      decreases Later(files, largest), searching
    {
      var next := FindSmallestBoundaryFile(files, largest);
      if next.Some? {
        var f := next.value;
        hi' := BoundingMore(files, picks, extra, largest, whole, lo, hi', f);
        FewerLater(files, largest, f);
        r, extra, largest := r + [f], extra + [f], f.largest;
      } else {
        searching := false;
      }
    }
    last := largest;
  }

  lemma BoundingStarts(files: seq<File>, picks: seq<File>, last: Entry, whole: seq<File>, lo: Key, hi: Key)
    requires Sub(picks, files) && IsLargest(picks, last) && Joined(whole, lo, hi)
    ensures Bounding(files, picks, [], last, whole, lo, hi)
  {
    assert picks + [] == picks && whole + [] == whole;
  }

  lemma FewerLater(files: seq<File>, last: Entry, f: File)
    requires f in files && AllBounds(files) && IsBoundary(f, last)
    ensures Later(files, f.largest) < Later(files, last)
  {
    assert Bounds(f);
    var i :| 0 <= i < |files| && files[i] == f;
    assert i in Later(files, last) && i !in Later(files, f.largest);
  }

  /** The ranges of the picks are [lo, hi], with no gap. */
  ghost predicate Joined(picks: seq<File>, lo: Key, hi: Key) {
    && (forall f :: f in picks ==> lo <= f.smallest.key && f.largest.key <= hi)
    && forall x :: lo <= x <= hi ==> SomeHolds(picks, x)
  }

  lemma JoinMore(picks: seq<File>, lo: Key, hi: Key, f: File)
    requires Joined(picks, lo, hi) && Touches(f, lo, hi)
    ensures Joined(picks + [f], if f.smallest.key < lo then f.smallest.key else lo, if hi < f.largest.key then f.largest.key else hi)
  {
    var lo' := if f.smallest.key < lo then f.smallest.key else lo;
    var hi' := if hi < f.largest.key then f.largest.key else hi;
    forall x | lo' <= x <= hi' ensures SomeHolds(picks + [f], x) {
      if lo <= x <= hi {
        assert SomeHolds(picks, x);
        var g :| g in picks && Holds(g, x);
        assert g in picks + [f];
      } else {
        assert f in picks + [f] && Holds(f, x);
      }
    }
  }

  // ------------------------------------------------------ setting up the inputs

  /** [lo, hi] is the range of user keys from the first of the files to the last. */
  ghost predicate Hull(files: seq<File>, lo: Key, hi: Key) {
    && (forall f :: f in files ==> lo <= f.smallest.key && f.largest.key <= hi)
    && (exists f :: f in files && f.smallest.key == lo)
    && (exists f :: f in files && f.largest.key == hi)
  }

  /** VersionSet::GetRange; GetRange2 is the same on both lists together. */
  method GetRange(inputs: seq<File>) returns (lo: Key, hi: Key)
    requires inputs != []
    ensures Hull(inputs, lo, hi)
  {
    var smallest, largest := inputs[0].smallest, inputs[0].largest;
    for i := 1 to |inputs|
      invariant exists f :: f in inputs && f.smallest == smallest
      invariant exists f :: f in inputs && f.largest == largest
      invariant forall x :: 0 <= x < i ==> !Before(inputs[x].smallest, smallest) && !Before(largest, inputs[x].largest)
    {
      if Before(inputs[i].smallest, smallest) { smallest := inputs[i].smallest; }
      if Before(largest, inputs[i].largest) { largest := inputs[i].largest; }
    }
    lo, hi := smallest.key, largest.key;
  }

  lemma {:induction false} JoinAll(whole: seq<File>, lo: Key, hi: Key, more: seq<File>) returns (lo': Key, hi': Key)
    requires Joined(whole, lo, hi) && forall f :: f in more ==> Touches(f, lo, hi)
    ensures Joined(whole + more, lo', hi') && lo' <= lo && hi <= hi'
    decreases |more|
  {
    if more == [] {
      assert whole + more == whole;
      lo', hi' := lo, hi;
    } else {
      var init, f := more[..|more| - 1], more[|more| - 1];
      assert more == init + [f] && f in more;
      lo', hi' := JoinAll(whole, lo, hi, init);
      JoinMore(whole + init, lo', hi', f);
      assert whole + more == (whole + init) + [f];
      if f.smallest.key < lo' { lo' := f.smallest.key; }
      if hi' < f.largest.key { hi' := f.largest.key; }
    }
  }

  lemma SameJoined(a: seq<File>, b: seq<File>, lo: Key, hi: Key)
    requires Joined(a, lo, hi) && forall f :: f in a <==> f in b
    ensures Joined(b, lo, hi)
  {
    forall x | lo <= x <= hi ensures SomeHolds(b, x) {
      assert SomeHolds(a, x);
      var f :| f in a && Holds(f, x);
      assert f in b;
    }
  }

  /** Level 0: the picks are all that touches a range none of them sticks out of. */
  ghost predicate Closed(files: seq<File>, picks: seq<File>, lo: Key, hi: Key) {
    && (forall f :: f in picks <==> f in files && Touches(f, lo, hi))
    && (forall f :: f in picks ==> lo <= f.smallest.key && f.largest.key <= hi)
  }

  lemma JoinWidened(files: seq<File>, whole: seq<File>, lo: Key, hi: Key, begin: Key, end: Key, picks: seq<File>, lo': Key, hi': Key)
    requires Joined(whole, lo, hi) && lo <= begin && end <= hi && forall f :: f in whole ==> begin <= f.smallest.key && f.largest.key <= end
    requires Widened(files, begin, end, lo', hi') && Closed(files, picks, lo', hi')
    ensures Joined(whole + picks, lo', hi')
  {
    forall x | lo' <= x <= hi' ensures SomeHolds(whole + picks, x) {
      if begin <= x <= end {
        assert SomeHolds(whole, x);
        var f :| f in whole && Holds(f, x);
        assert f in whole + picks;
      } else {
        assert SomeHolds(files, x);
        var f :| f in files && Holds(f, x);
        assert Touches(f, lo', hi') && f in whole + picks;
      }
    }
  }

  /** What the picks of a level must be like. */
  ghost predicate Ready(level: nat, files: seq<File>, picks: seq<File>) {
    && picks != [] && Sub(picks, files) && AllBounds(files)
    && (if level == 0 then exists lo, hi :: Closed(files, picks, lo, hi) else Arranged(files) && Convex(files, picks))
  }

  /** ... and no file of the level goes on with the key at which they end. */
  ghost predicate Finished(level: nat, files: seq<File>, picks: seq<File>) {
    && Ready(level, files, picks)
    && exists last :: IsLargest(picks, last) && forall f :: f in files ==> !IsBoundary(f, last)
  }

  lemma ClosedHas(files: seq<File>, picks: seq<File>, f: File, first: Entry)
    requires Ready(0, files, picks) && f in files && IsLargest(picks, first) && f.smallest.key == first.key
    ensures f in picks
  {
    var a, b :| Closed(files, picks, a, b);
    var top :| top in picks && top.largest == first;
    assert Bounds(f) && Bounds(top);
  }

  lemma ClosedComplete(files: seq<File>, picks: seq<File>, extra: seq<File>, last: Entry, whole: seq<File>, lo: Key, hi: Key)
    requires Ready(0, files, picks) && Bounding(files, picks, extra, last, whole, lo, hi)
    ensures extra == []
  {
    hide Ready, Joined, IsLargest;
    forall f, first | f in files && IsLargest(picks, first) && f.smallest.key == first.key ensures f in picks {
      ClosedHas(files, picks, f, first);
    }
  }

  lemma BoundedReady(level: nat, files: seq<File>, picks: seq<File>, extra: seq<File>, last: Entry, whole: seq<File>, lo: Key, hi: Key)
    requires Ready(level, files, picks) && Bounding(files, picks, extra, last, whole, lo, hi)
    requires forall f :: f in files ==> !IsBoundary(f, last)
    ensures Finished(level, files, picks + extra)
  {
    if level == 0 {
      ClosedComplete(files, picks, extra, last, whole, lo, hi);
      assert picks + extra == picks;
    }
    hide Convex, Arranged, Joined;
  }

  /** Picks of a level with the files next to them, on one stretch of keys. */
  ghost predicate Paired(level: nat, files: seq<File>, next: seq<File>, inputs0: seq<File>, inputs1: seq<File>, lo: Key, hi: Key) {
    && Finished(level, files, inputs0)
    && (exists a, b :: Hull(inputs0, a, b) && inputs1 == Touching(next, a, b))
    && Joined(inputs0 + inputs1, lo, hi)
  }

  lemma PairUp(level: nat, files: seq<File>, next: seq<File>, inputs0: seq<File>, whole: seq<File>, lo: Key, hi: Key,
               a: Key, b: Key, inputs1: seq<File>) returns (lo': Key, hi': Key)
    requires Sub(inputs0, whole) && Joined(whole, lo, hi) && Hull(inputs0, a, b) && inputs1 == Touching(next, a, b)
    ensures Joined(whole + inputs1, lo', hi')
  {
    forall f | f in inputs1 ensures Touches(f, lo, hi) {}
    lo', hi' := JoinAll(whole, lo, hi, inputs1);
  }

  lemma TouchingConvex(files: seq<File>, lo: Key, hi: Key)
    requires Arranged(files)
    ensures Convex(files, Touching(files, lo, hi))
  {
    var picks := Touching(files, lo, hi);
    forall i, j, k | 0 <= i < j < k < |files| && files[i] in picks && files[k] in picks ensures files[j] in picks {
      InOrder(files, i, j);
      InOrder(files, j, k);
      assert files[j] in files && Bounds(files[j]);
    }
  }

  /** The inputs of `level` that touch all that is picked so far. */
  lemma ExpandedReady(level: nat, files: seq<File>, inputs0: seq<File>, inputs1: seq<File>, lo: Key, hi: Key,
                      begin: Key, end: Key, expanded: seq<File>, lo': Key, hi': Key) returns (wlo: Key, whi: Key)
    requires Ready(level, files, inputs0) && Joined(inputs0 + inputs1, lo, hi) && Hull(inputs0 + inputs1, begin, end)
    requires expanded == Touching(files, lo', hi') && Widened(files, begin, end, lo', hi')
    requires level > 0 ==> lo' == begin && hi' == end
    requires level == 0 ==> forall f :: f in expanded ==> lo' <= f.smallest.key && f.largest.key <= hi'
    ensures Ready(level, files, expanded) && Sub(inputs0, expanded)
    ensures Joined(inputs0 + inputs1 + expanded, wlo, whi)
  {
    var whole := inputs0 + inputs1;
    forall f | f in inputs0 ensures f in expanded { assert f in whole && Bounds(f); }
    HullInside(whole, lo, hi, begin, end);
    assert inputs0[0] in inputs0 && inputs0[0] in expanded;
    if level == 0 {
      assert Closed(files, expanded, lo', hi');
      wlo, whi := lo', hi';
      JoinWidened(files, whole, lo, hi, begin, end, expanded, lo', hi');
    } else {
      TouchingConvex(files, lo', hi');
      wlo, whi := JoinAll(whole, lo, hi, expanded);
    }
  }

  lemma HullInside(whole: seq<File>, lo: Key, hi: Key, a: Key, b: Key)
    requires Joined(whole, lo, hi) && Hull(whole, a, b)
    ensures lo <= a && b <= hi
  {
  }

  /** The wider picks take in the narrower ones, of both levels. */
  lemma Reduced(next: seq<File>, inputs0: seq<File>, inputs1: seq<File>, a: Key, b: Key,
                expanded0: seq<File>, expanded1: seq<File>, a': Key, b': Key, lo: Key, hi: Key)
    requires Sub(inputs0, expanded0) && Hull(inputs0, a, b) && Hull(expanded0, a', b')
    requires inputs1 == Touching(next, a, b) && expanded1 == Touching(next, a', b')
    requires Joined(inputs0 + inputs1 + expanded0 + expanded1, lo, hi)
    ensures Joined(expanded0 + expanded1, lo, hi)
  {
    assert a' <= a && b <= b';
    SameJoined(inputs0 + inputs1 + expanded0 + expanded1, expanded0 + expanded1, lo, hi);
  }

  lemma ReadyIs(level: nat, files: seq<File>, picks: seq<File>)
    requires Ready(level, files, picks)
    ensures picks != [] && Sub(picks, files) && AllBounds(files) && Sub(picks, picks)
  {
  }

  lemma FinishedReady(level: nat, files: seq<File>, picks: seq<File>)
    requires Finished(level, files, picks)
    ensures Ready(level, files, picks)
  {
  }

  lemma BoundingJoined(files: seq<File>, picks: seq<File>, extra: seq<File>, last: Entry, whole: seq<File>, lo: Key, hi: Key)
    requires Bounding(files, picks, extra, last, whole, lo, hi)
    ensures Joined(whole + extra, lo, hi)
  {
  }

  lemma IsPaired(level: nat, files: seq<File>, next: seq<File>, inputs0: seq<File>, inputs1: seq<File>, lo: Key, hi: Key, a: Key, b: Key)
    requires Finished(level, files, inputs0) && Hull(inputs0, a, b) && inputs1 == Touching(next, a, b)
    requires Joined(inputs0 + inputs1, lo, hi)
    ensures Paired(level, files, next, inputs0, inputs1, lo, hi)
  {
  }

  /** The wider picks are as good as the narrower ones. */
  lemma ExpandedPair(level: nat, files: seq<File>, next: seq<File>, inputs0: seq<File>, inputs1: seq<File>, a: Key, b: Key,
                     expanded: seq<File>, extra: seq<File>, lo: Key, hi: Key, a': Key, b': Key, expanded1: seq<File>)
    returns (lo': Key, hi': Key)
    requires Sub(inputs0, expanded) && Finished(level, files, expanded + extra) && Hull(inputs0, a, b) && inputs1 == Touching(next, a, b)
    requires Joined(inputs0 + inputs1 + expanded + extra, lo, hi)
    requires Hull(expanded + extra, a', b') && expanded1 == Touching(next, a', b')
    ensures Paired(level, files, next, expanded + extra, expanded1, lo', hi')
  {
    var expanded0, whole := expanded + extra, inputs0 + inputs1 + expanded + extra;
    assert Sub(expanded0, whole) && Sub(inputs0, expanded0);
    lo', hi' := PairUp(level, files, next, expanded0, whole, lo, hi, a', b', expanded1);
    assert forall f :: f in whole + expanded1 <==> f in inputs0 + inputs1 + expanded0 + expanded1;
    hide Joined, Hull, Finished, Touching;
    SameJoined(whole + expanded1, inputs0 + inputs1 + expanded0 + expanded1, lo', hi');
    Reduced(next, inputs0, inputs1, a, b, expanded0, expanded1, a', b', lo', hi');
    IsPaired(level, files, next, expanded0, expanded1, lo', hi', a', b');
  }

  /** The files of the level that touch all that is picked, the boundary files after them, and the next level's files they touch. */
  ghost predicate Wider(level: nat, files: seq<File>, next: seq<File>, base0: seq<File>, base1: seq<File>, wide0: seq<File>, wide1: seq<File>) {
    && Finished(level, files, wide0) && Sub(base0, wide0)
    && (exists a, b :: Hull(base0 + base1, a, b) && forall f :: f in files && Touches(f, a, b) ==> f in wide0)
    && (exists a, b :: Hull(wide0, a, b) && wide1 == Touching(next, a, b))
  }

  /** The wider picks are taken if they bring in more of the level, none of the next, and are not too large. */
  predicate WorthIt(base0: seq<File>, base1: seq<File>, wide0: seq<File>, wide1: seq<File>, limit: nat) {
    base1 != [] && |wide0| > |base0| && SizeOf(base1) + SizeOf(wide0) < limit && |wide1| == |base1|
  }

  /**
   VersionSet::SetupOtherInputs: boundary files of the level, the files of the
   next level that overlap them, and then more files of the level as long as
   that brings in no further file of the next. `base` is the choice without the
   expansion, `wide` the one with it.
   */
  method SetupOtherInputs(level: nat, files: seq<File>, next: seq<File>, picks: seq<File>, limit: nat, ghost lo: Key, ghost hi: Key)
    returns (inputs0: seq<File>, inputs1: seq<File>, ghost lo': Key, ghost hi': Key,
             ghost base: (seq<File>, seq<File>), ghost wide: (seq<File>, seq<File>))
    requires Ready(level, files, picks) && Joined(picks, lo, hi) && AllBounds(next)
    ensures Paired(level, files, next, inputs0, inputs1, lo', hi') && Sub(picks, inputs0)
    ensures exists a, b :: Paired(level, files, next, base.0, base.1, a, b) && Sub(picks, base.0)
    ensures base.1 != [] ==> Wider(level, files, next, base.0, base.1, wide.0, wide.1)
    ensures (inputs0, inputs1) == if WorthIt(base.0, base.1, wide.0, wide.1, limit) then wide else base
  {
    hide *;
    ReadyIs(level, files, picks);
    ghost var extra, last, a, b;
    inputs0, extra, last, hi' := AddBoundaryInputs(files, picks, picks, lo, hi);
    BoundedReady(level, files, picks, extra, last, picks, lo, hi');
    BoundingJoined(files, picks, extra, last, picks, lo, hi');
    FinishedReady(level, files, inputs0);
    ReadyIs(level, files, inputs0);
    var smallest, largest := GetRange(inputs0);
    inputs1, a, b := GetOverlappingInputs(level + 1, next, smallest, largest);
    lo', hi' := PairUp(level, files, next, inputs0, inputs0, lo, hi', smallest, largest, inputs1);
    IsPaired(level, files, next, inputs0, inputs1, lo', hi', smallest, largest);
    PartOf(extra, picks);
    InFront(picks, extra);
    base, wide := (inputs0, inputs1), (inputs0, inputs1);
    NotWorth(inputs0, inputs1, limit);
    if inputs1 != [] {
      var begin, end := GetRange(inputs0 + inputs1);
      var expanded;
      expanded, a, b := GetOverlappingInputs(level, files, begin, end);
      ghost var wlo, whi := ExpandedReady(level, files, inputs0, inputs1, lo', hi', begin, end, expanded, a, b);
      ReadyIs(level, files, expanded);
      ghost var whole := inputs0 + inputs1 + expanded;
      PartOf(inputs0 + inputs1, expanded);
      var expanded0;
      expanded0, extra, last, whi := AddBoundaryInputs(files, expanded, whole, wlo, whi);
      BoundedReady(level, files, expanded, extra, last, whole, wlo, whi);
      BoundingJoined(files, expanded, extra, last, whole, wlo, whi);
      var size0 := TotalFileSize(inputs0);
      var size1 := TotalFileSize(inputs1);
      var size := TotalFileSize(expanded0);
      FinishedReady(level, files, expanded0);
      ReadyIs(level, files, expanded0);
      ghost var c, d := HullOf(expanded0);
      wide := (expanded0, Touching(next, c, d));
      IsWider(level, files, next, inputs0, inputs1, begin, end, expanded, a, b, extra, c, d);
      WorthItIs(inputs0, inputs1, wide.0, wide.1, limit);
      if |expanded0| > |inputs0| && size1 + size < limit {
        var newStart, newLimit := GetRange(expanded0);
        OneHull(expanded0, c, d, newStart, newLimit);
        var expanded1;
        expanded1, a, b := GetOverlappingInputs(level + 1, next, newStart, newLimit);
        if |expanded1| == |inputs1| {
          lo', hi' := ExpandedPair(level, files, next, inputs0, inputs1, smallest, largest, expanded, extra, wlo, whi, newStart, newLimit, expanded1);
          SubTrans(picks, inputs0, expanded, extra);
          inputs0, inputs1 := expanded0, expanded1;
        }
      }
    }
  }

  lemma InFront(a: seq<File>, b: seq<File>)
    ensures Sub(a, a + b)
  {
  }

  lemma NotWorth(base0: seq<File>, base1: seq<File>, limit: nat)
    ensures !WorthIt(base0, base1, base0, base1, limit)
  {
  }

  lemma WorthItIs(base0: seq<File>, base1: seq<File>, wide0: seq<File>, wide1: seq<File>, limit: nat)
    ensures WorthIt(base0, base1, wide0, wide1, limit) <==>
            base1 != [] && |wide0| > |base0| && SizeOf(base1) + SizeOf(wide0) < limit && |wide1| == |base1|
  {
  }

  lemma SubTrans(picks: seq<File>, inputs0: seq<File>, expanded: seq<File>, extra: seq<File>)
    requires Sub(picks, inputs0) && Sub(inputs0, expanded)
    ensures Sub(picks, expanded + extra)
  {
  }

  lemma OneHull(files: seq<File>, a: Key, b: Key, c: Key, d: Key)
    requires Hull(files, a, b) && Hull(files, c, d)
    ensures a == c && b == d
  {
  }

  lemma {:induction false} HullOf(files: seq<File>) returns (lo: Key, hi: Key)
    requires files != [] && AllBounds(files)
    ensures Hull(files, lo, hi)
  {
    var init, f := files[..|files| - 1], files[|files| - 1];
    assert files == init + [f] && f in files && Bounds(f);
    lo, hi := f.smallest.key, f.largest.key;
    if init != [] {
      var a, b := HullOf(init);
      assert forall g :: g in init ==> g in files;
      if a < lo { lo := a; }
      if hi < b { hi := b; }
    }
  }

  lemma IsWider(level: nat, files: seq<File>, next: seq<File>, base0: seq<File>, base1: seq<File>, begin: Key, end: Key,
                expanded: seq<File>, lo: Key, hi: Key, extra: seq<File>, c: Key, d: Key)
    requires Hull(base0 + base1, begin, end) && expanded == Touching(files, lo, hi) && Widened(files, begin, end, lo, hi)
    requires Sub(base0, expanded) && Finished(level, files, expanded + extra) && Hull(expanded + extra, c, d)
    ensures Wider(level, files, next, base0, base1, expanded + extra, Touching(next, c, d))
  {
    hide Finished;
    forall f | f in files && Touches(f, begin, end) ensures f in expanded + extra { assert Touches(f, lo, hi); }
    assert forall f :: f in base0 ==> f in expanded + extra;
  }

  lemma PartOf(a: seq<File>, b: seq<File>)
    ensures Sub(b, a + b)
  {
  }

  /** The first file that ends after the place where the level was compacted last, or the first of all. */
  predicate GoesOn(files: seq<File>, pointer: Option<Entry>, first: nat) {
    && first < |files|
    && (forall i :: 0 <= i < first ==> pointer.Some? && !Before(pointer.value, files[i].largest))
    && (pointer.Some? && !Before(pointer.value, files[first].largest) ==>
          first == 0 && forall i :: 0 <= i < |files| ==> !Before(pointer.value, files[i].largest))
  }

  /** PickCompaction's choice of the first file by size. */
  method PickFirst(files: seq<File>, pointer: Option<Entry>) returns (first: nat)
    requires files != []
    ensures GoesOn(files, pointer, first)
  {
    first := 0;
    while first < |files|
      invariant first <= |files| && (first == 0 || pointer.Some?)
      invariant forall i :: 0 <= i < first ==> pointer.Some? && !Before(pointer.value, files[i].largest)
    {
      if pointer.None? || Before(pointer.value, files[first].largest) { return; }
      first := first + 1;
    }
    first := 0;
  }

  /** So the files of a level below 0 take turns: after the picks that end with file i comes the next one, after the last the first. */
  lemma FilesTakeTurns(files: seq<File>, i: nat, first: nat)
    requires Arranged(files) && i < |files| && GoesOn(files, Some(files[i].largest), first)
    ensures first == if i + 1 < |files| then i + 1 else 0
  {
    forall j | 0 <= j < |files| ensures Before(files[i].largest, files[j].largest) <==> i < j {
      assert Bounds(files[i]) && Bounds(files[j]);
      assert i < j ==> Before(files[i].largest, files[j].smallest);
      assert j < i ==> Before(files[j].largest, files[i].smallest);
    }
    hide Bounds, Arranged, Before;
    assert i < first <==> Before(files[i].largest, files[first].largest);
    if i + 1 < |files| { assert Before(files[i].largest, files[i + 1].largest); }
  }

  /**
   VersionSet::PickCompaction, from the file chosen by size or by seeks on: in
   level 0 with all the files that overlap it, directly or through others.
   */
  method PickCompaction(level: nat, files: seq<File>, next: seq<File>, first: nat, limit: nat)
    returns (inputs0: seq<File>, inputs1: seq<File>, ghost lo: Key, ghost hi: Key)
    requires first < |files| && AllBounds(files) && (level > 0 ==> Arranged(files)) && AllBounds(next)
    ensures Paired(level, files, next, inputs0, inputs1, lo, hi) && files[first] in inputs0
  {
    var f := files[first];
    inputs0 := [f];
    lo, hi := f.smallest.key, f.largest.key;
    if level == 0 {
      var smallest, largest := GetRange(inputs0);
      assert f in inputs0 && smallest == lo && largest == hi;
      inputs0, lo, hi := GetOverlappingInputs(0, files, smallest, largest);
      ClosedReady(files, inputs0, f, lo, hi);
    } else {
      OneReady(level, files, f);
    }
    ghost var picks, base, wide := inputs0, ([], []), ([], []);
    assert f in picks;
    hide Ready, Joined, AllBounds, Paired, Wider, WorthIt, Arranged;
    inputs0, inputs1, lo, hi, base, wide := SetupOtherInputs(level, files, next, inputs0, limit, lo, hi);
  }

  lemma OneReady(level: nat, files: seq<File>, f: File)
    requires f in files && level > 0 && Arranged(files)
    ensures Ready(level, files, [f]) && Joined([f], f.smallest.key, f.largest.key)
  {
    forall i, k | 0 <= i < k < |files| ensures files[i] != files[k] {
      InOrder(files, i, k);
      assert Bounds(files[i]);
    }
    forall x | f.smallest.key <= x <= f.largest.key ensures SomeHolds([f], x) { assert f in [f] && Holds(f, x); }
  }

  lemma ClosedReady(files: seq<File>, picks: seq<File>, f: File, lo: Key, hi: Key)
    requires f in files && AllBounds(files) && picks == Touching(files, lo, hi) && Widened(files, f.smallest.key, f.largest.key, lo, hi)
    requires forall g :: g in picks ==> lo <= g.smallest.key && g.largest.key <= hi
    ensures Ready(0, files, picks) && Joined(picks, lo, hi)
  {
    assert Bounds(f) && f in picks;
    assert Closed(files, picks, lo, hi);
    forall x | lo <= x <= hi ensures SomeHolds(picks, x) {
      if f.smallest.key <= x <= f.largest.key {
        assert Holds(f, x);
      } else {
        assert SomeHolds(files, x);
        var g :| g in files && Holds(g, x);
        assert Touches(g, lo, hi);
      }
    }
  }

  // ------------------------------------------------- what the engine relies on

  /** The files of a version, level by level. */
  ghost predicate Lists(v: Version, levels: seq<seq<File>>) {
    && |levels| == DEEP_LEVELS + 1 && |v.deep| == DEEP_LEVELS
    && (forall l :: 0 <= l < |levels| ==> AllBounds(levels[l]) && (l > 0 ==> Arranged(levels[l])))
    && (forall l: nat, t :: l < |levels| ==> (InLevel(v, l, t) <==> t in TablesOf(levels[l])))
    && (forall l, f, g :: 0 <= l < |levels| && f in levels[l] && g in levels[l] && f.table == g.table ==> f == g)
  }

  lemma EntryHeld(f: File, e: Entry)
    requires Bounds(f) && e in f.table.entries
    ensures Holds(f, e.key)
  {
  }

  /** PickLevelForMemTableOutput keeps a memtable clear of all it would be put below. */
  lemma LevelFits(v: Version, levels: seq<seq<File>>, level: nat, es: set<Entry>, lo: Key, hi: Key)
    requires Lists(v, levels) && level <= MAX_MEM_COMPACT_LEVEL && forall e :: e in es ==> lo <= e.key <= hi
    requires level > 0 ==> forall l, f :: 0 <= l <= level && f in levels[l] ==> !Touches(f, lo, hi)
    ensures FlushFits(v, level, es)
  {
    forall l: nat, u | level > 0 && l <= level && InLevel(v, l, u) ensures !Overlap(es, u.entries) {
      var f :| f in levels[l] && f.table == u;
      assert Bounds(f) && !Touches(f, lo, hi);
      forall x | x in u.entries ensures Holds(f, x.key) { EntryHeld(f, x); }
    }
  }

  /** The pointers into the levels that IsBaseLevelForKey keeps from one key to the next. */
  class BaseLevel {
    const levels: seq<seq<File>>
    const level: nat
    var ptrs: seq<nat>
    ghost var asked: Option<Key>

    ghost predicate Valid()
      reads this
    {
      && |levels| == |ptrs| == DEEP_LEVELS + 1 && (forall l :: 0 < l < |levels| ==> Arranged(levels[l]))
      && (forall l :: 0 <= l < |ptrs| ==> ptrs[l] <= |levels[l]|)
      && (forall l, i :: 0 <= l < |ptrs| && 0 <= i < ptrs[l] ==> asked.Some? && levels[l][i].largest.key < asked.value)
    }

    constructor (levels: seq<seq<File>>, level: nat)
      requires |levels| == DEEP_LEVELS + 1 && forall l :: 0 < l < |levels| ==> Arranged(levels[l])
      ensures Valid() && this.levels == levels && this.level == level && asked == None
    {
      this.levels, this.level := levels, level;
      ptrs, asked := seq(DEEP_LEVELS + 1, _ => 0), None;
    }

    /** IsBaseLevelForKey, for keys asked in order: no file beyond the next level has room for the key. */
    method IsBaseLevelForKey(k: Key) returns (base: bool)
      requires Valid() && (asked.Some? ==> asked.value <= k)
      modifies this
      ensures Valid() && asked == Some(k)
      ensures base <==> forall l, f :: level + 2 <= l <= DEEP_LEVELS && f in levels[l] ==> !Holds(f, k)
    {
      asked := Some(k);
      var l := level + 2;
      while l < |levels|
        invariant level + 2 <= l && Valid() && asked == Some(k)
        invariant forall m, f :: level + 2 <= m < l && m < |levels| && f in levels[m] ==> !Holds(f, k)
      {
        var searching := true;
        while searching && ptrs[l] < |levels[l]|
          invariant l < |levels| && Valid() && asked == Some(k)
          invariant !searching ==> ptrs[l] < |levels[l]| && k < levels[l][ptrs[l]].smallest.key
          decreases searching, |levels[l]| - ptrs[l]
        {
          var f := levels[l][ptrs[l]];
          if k <= f.largest.key {
            if k >= f.smallest.key {
              assert f in levels[l] && Holds(f, k);
              return false;
            }
            searching := false;
          } else {
            ptrs := ptrs[l := ptrs[l] + 1];
          }
        }
        forall f | f in levels[l] ensures !Holds(f, k) { PassedOrAhead(levels[l], ptrs[l], k, f); }
        l := l + 1;
      }
      base := true;
    }
  }

  lemma PassedOrAhead(files: seq<File>, at: nat, k: Key, f: File)
    requires Arranged(files) && at <= |files| && f in files
    requires forall i :: 0 <= i < at ==> files[i].largest.key < k
    requires at < |files| ==> k < files[at].smallest.key
    ensures !Holds(f, k)
  {
    var i :| 0 <= i < |files| && files[i] == f;
    if at < i { InOrder(files, at, i); }
  }

  /** The keys it says yes to have nothing deeper. */
  lemma BaseFits(v: Version, levels: seq<seq<File>>, level: nat, base: set<Key>)
    requires Lists(v, levels)
    requires forall k :: k in base ==> forall l, f :: level + 2 <= l <= DEEP_LEVELS && f in levels[l] ==> !Holds(f, k)
    ensures NothingDeeper(v, level, base)
  {
    forall l: nat, x | level + 2 <= l <= DEEP_LEVELS && x in LevelEntries(v, l) ensures x.key !in base {
      InLevelEntries(v, l, x);
      var t :| InLevel(v, l, t) && x in t.entries;
      var f :| f in levels[l] && f.table == t;
      EntryHeld(f, x);
    }
  }

  // ------------------------------------------------------- picks are what is asked

  ghost function Picked(inputs0: seq<File>, inputs1: seq<File>): set<Table> { TablesOf(inputs0) + TablesOf(inputs1) }

  /** A table is in one level only, since a version of a key is. */
  lemma OneLevel(v: Version, levels: seq<seq<File>>, l: nat, m: nat, f: File)
    requires LevelsOrdered(v) && Lists(v, levels) && l < |levels| && m < |levels| && f in levels[l] && InLevel(v, m, f.table)
    ensures l == m
  {
    assert Bounds(f);
    assert InLevel(v, l, f.table);
    InLevelEntries(v, l, f.smallest);
    InLevelEntries(v, m, f.smallest);
  }

  lemma PickedLevels(v: Version, levels: seq<seq<File>>, level: nat, inputs0: seq<File>, inputs1: seq<File>)
    requires LevelsOrdered(v) && Lists(v, levels) && level < DEEP_LEVELS
    requires Sub(inputs0, levels[level]) && Sub(inputs1, levels[level + 1])
    ensures FromTwoLevels(v, level, Picked(inputs0, inputs1))
    ensures LevelInputs(v, level, Picked(inputs0, inputs1)) == TablesOf(inputs0)
    ensures forall f :: f in levels[level] ==> (f.table in Picked(inputs0, inputs1) <==> f in inputs0)
    ensures forall f :: f in levels[level + 1] ==> (f.table in Picked(inputs0, inputs1) <==> f in inputs1)
  {
    var inputs := Picked(inputs0, inputs1);
    forall f | f in inputs1 ensures InLevel(v, level + 1, f.table) && !InLevel(v, level, f.table) {
      assert f in levels[level + 1] && f.table in TablesOf(levels[level + 1]);
      if InLevel(v, level, f.table) { OneLevel(v, levels, level + 1, level, f); }
    }
    forall f | f in inputs0 ensures InLevel(v, level, f.table) && !InLevel(v, level + 1, f.table) {
      assert f in levels[level] && f.table in TablesOf(levels[level]);
      if InLevel(v, level + 1, f.table) { OneLevel(v, levels, level, level + 1, f); }
    }
    hide InLevel, LevelsOrdered, Arranged, AllBounds;
    forall f | f in levels[level] ensures f.table in inputs <==> f in inputs0 {
      assert f.table in TablesOf(levels[level]) && InLevel(v, level, f.table);
    }
    forall f | f in levels[level + 1] ensures f.table in inputs <==> f in inputs1 {
      assert f.table in TablesOf(levels[level + 1]) && InLevel(v, level + 1, f.table);
    }
    forall t ensures t in LevelInputs(v, level, inputs) <==> t in TablesOf(inputs0) {}
  }

  lemma ClosedApart(files: seq<File>, picks: seq<File>, f: File, e: Entry, g: File, x: Entry)
    requires Ready(0, files, picks) && f in picks && g in files && g !in picks
    requires e in f.table.entries && x in g.table.entries
    ensures e.key != x.key
  {
    var lo, hi :| Closed(files, picks, lo, hi);
    assert f in files && Bounds(f) && Bounds(g);
    EntryHeld(f, e);
    EntryHeld(g, x);
  }

  lemma NotBetween(files: seq<File>, picks: seq<File>, i: nat, j: nat, k: nat)
    requires Convex(files, picks) && i < |files| && j < |files| && k < |files|
    requires files[i] in picks && files[k] in picks && files[j] !in picks
    ensures !(i < j < k)
  {
  }

  lemma RunNewer(files: seq<File>, picks: seq<File>, last: Entry, f: File, e: Entry, g: File, x: Entry)
    requires Arranged(files) && Sub(picks, files) && Convex(files, picks)
    requires IsLargest(picks, last) && forall h :: h in files ==> !IsBoundary(h, last)
    requires f in picks && g in files && g !in picks
    requires e in f.table.entries && x in g.table.entries && e.key == x.key
    ensures e.seqno < x.seqno
  {
    var top :| top in picks && top.largest == last;
    var i :| 0 <= i < |files| && files[i] == f;
    var j :| 0 <= j < |files| && files[j] == g;
    var k :| 0 <= k < |files| && files[k] == top;
    assert f in files && Bounds(f) && Bounds(g);
    NotBetween(files, picks, i, j, k);
    NotPast(files, picks, last, k, j, f, e, x);
    InOrder(files, j, i);
    hide Arranged, Convex;
  }

  /** In a finished level, what is left behind of a picked key is newer. */
  lemma FinishedNewer(level: nat, files: seq<File>, picks: seq<File>, f: File, e: Entry, g: File, x: Entry)
    requires Finished(level, files, picks) && f in picks && g in files && g !in picks
    requires e in f.table.entries && x in g.table.entries && e.key == x.key
    ensures e.seqno < x.seqno
  {
    if level == 0 {
      ClosedApart(files, picks, f, e, g, x);
      assert false;
    } else {
      var last :| IsLargest(picks, last) && forall h :: h in files ==> !IsBoundary(h, last);
      hide IsLargest, IsBoundary, Arranged, Convex, Sub;
      RunNewer(files, picks, last, f, e, g, x);
    }
  }

  /** Past the last pick, a file with a picked key is a boundary file. */
  lemma PastIsBoundary(files: seq<File>, picks: seq<File>, last: Entry, k: nat, j: nat, f: File, e: Entry, x: Entry)
    requires Arranged(files) && IsLargest(picks, last) && f in picks && Bounds(f) && e in f.table.entries
    requires k < j < |files| && files[k].largest == last && x in files[j].table.entries && e.key == x.key
    ensures files[j] in files && IsBoundary(files[j], last)
  {
    InOrder(files, k, j);
    assert Bounds(files[j]) && !Before(last, f.largest) && !Before(f.largest, e) && !Before(x, files[j].smallest);
  }

  lemma NotPast(files: seq<File>, picks: seq<File>, last: Entry, k: nat, j: nat, f: File, e: Entry, x: Entry)
    requires Arranged(files) && IsLargest(picks, last) && f in picks && Bounds(f) && e in f.table.entries
    requires forall h :: h in files ==> !IsBoundary(h, last)
    requires k < |files| && j < |files| && files[k].largest == last && x in files[j].table.entries && e.key == x.key
    ensures j <= k
  {
    hide Arranged, IsLargest, IsBoundary, Bounds;
    if k < j {
      PastIsBoundary(files, picks, last, k, j, f, e, x);
      assert false;
    }
  }

  lemma NextOverlaps(inputs0: seq<File>, a: Key, b: Key, g: File)
    requires AllBounds(inputs0) && Bounds(g) && Hull(inputs0, a, b)
    ensures Touches(g, a, b) <==> Overlap(EntriesOf(TablesOf(inputs0)), g.table.entries)
  {
    var all := EntriesOf(TablesOf(inputs0));
    HullEntries(inputs0, a, b);
    hide EntriesOf, TablesOf, AllBounds, Hull;
    forall y | y in g.table.entries ensures Holds(g, y.key) { EntryHeld(g, y); }
  }

  /** The entries of the files lie within their hull, and one of them at each end of it. */
  lemma HullEntries(inputs0: seq<File>, a: Key, b: Key)
    requires AllBounds(inputs0) && Hull(inputs0, a, b)
    ensures forall e :: e in EntriesOf(TablesOf(inputs0)) ==> a <= e.key <= b
    ensures exists x, y :: x in EntriesOf(TablesOf(inputs0)) && y in EntriesOf(TablesOf(inputs0)) && x.key == a && y.key == b
  {
    var all := EntriesOf(TablesOf(inputs0));
    var first :| first in inputs0 && first.smallest.key == a;
    var last :| last in inputs0 && last.largest.key == b;
    assert first.table in TablesOf(inputs0) && last.table in TablesOf(inputs0);
    assert first.smallest in all && last.largest in all;
    forall e | e in all ensures a <= e.key <= b {
      var t :| t in TablesOf(inputs0) && e in t.entries;
      var f :| f in inputs0 && f.table == t;
      EntryHeld(f, e);
    }
  }

  /**
   The picks of SetupOtherInputs, with the answers of IsBaseLevelForKey, are
   what the engine's compaction steps start from.
   */
  lemma VersionSetPicks(v: Version, levels: seq<seq<File>>, level: nat, inputs0: seq<File>, inputs1: seq<File>,
                        lo: Key, hi: Key, base: set<Key>)
    requires Ordered(v) && Lists(v, levels) && level < DEEP_LEVELS
    requires Paired(level, levels[level], levels[level + 1], inputs0, inputs1, lo, hi) && NothingDeeper(v, level, base)
    ensures CompactionPicked(v, level, Picked(inputs0, inputs1), base)
  {
    hide *;
    ListsLevels(v, levels);
    var a, b := PairedParts(level, levels[level], levels[level + 1], inputs0, inputs1, lo, hi);
    PicksFrom(v, levels, level, inputs0, inputs1);
    PicksNewer(v, levels, level, inputs0, inputs1);
    PicksOverlap(v, levels, level, inputs0, inputs1, a, b);
    AllPicked(v, level, Picked(inputs0, inputs1), base);
  }

  lemma PairedParts(level: nat, files: seq<File>, next: seq<File>, inputs0: seq<File>, inputs1: seq<File>, lo: Key, hi: Key)
    returns (a: Key, b: Key)
    requires Paired(level, files, next, inputs0, inputs1, lo, hi)
    ensures Finished(level, files, inputs0) && Hull(inputs0, a, b) && inputs1 == Touching(next, a, b)
    ensures Sub(inputs0, files) && Sub(inputs1, next)
  {
    a, b :| Hull(inputs0, a, b) && inputs1 == Touching(next, a, b);
    hide Hull, Joined, Convex, Arranged;
  }

  lemma AllPicked(v: Version, level: nat, inputs: set<Table>, base: set<Key>)
    requires level < DEEP_LEVELS == |v.deep| && FromTwoLevels(v, level, inputs) && LeftBehindNewer(v, level, inputs)
    requires NextPicked(v, level, inputs) && NothingDeeper(v, level, base)
    ensures CompactionPicked(v, level, inputs, base)
  {
    hide FromTwoLevels, LeftBehindNewer, NothingDeeper, Overlap, EntriesOf, LevelInputs;
  }

  ghost predicate NextPicked(v: Version, level: nat, inputs: set<Table>)
    requires level < |v.deep|
  {
    forall u :: u in v.deep[level] ==> (u in inputs <==> Overlap(EntriesOf(LevelInputs(v, level, inputs)), u.entries))
  }

  lemma PicksFrom(v: Version, levels: seq<seq<File>>, level: nat, inputs0: seq<File>, inputs1: seq<File>)
    requires Ordered(v) && Lists(v, levels) && level < DEEP_LEVELS
    requires Sub(inputs0, levels[level]) && Sub(inputs1, levels[level + 1])
    ensures FromTwoLevels(v, level, Picked(inputs0, inputs1))
  {
    PickedLevels(v, levels, level, inputs0, inputs1);
  }

  lemma PicksOverlap(v: Version, levels: seq<seq<File>>, level: nat, inputs0: seq<File>, inputs1: seq<File>, a: Key, b: Key)
    requires Ordered(v) && Lists(v, levels) && level < DEEP_LEVELS == |v.deep|
    requires Finished(level, levels[level], inputs0) && Hull(inputs0, a, b) && inputs1 == Touching(levels[level + 1], a, b)
    ensures NextPicked(v, level, Picked(inputs0, inputs1))
  {
    hide Lists, NewestFirst, Finished, Hull, Overlap, EntriesOf, LevelInputs, Picked;
    forall u | u in v.deep[level]
      ensures u in Picked(inputs0, inputs1) <==> Overlap(EntriesOf(LevelInputs(v, level, Picked(inputs0, inputs1))), u.entries)
    {
      PickedIffOverlap(v, levels, level, inputs0, inputs1, a, b, u);
    }
  }

  lemma PicksNewer(v: Version, levels: seq<seq<File>>, level: nat, inputs0: seq<File>, inputs1: seq<File>)
    requires Ordered(v) && Lists(v, levels) && level < DEEP_LEVELS
    requires Finished(level, levels[level], inputs0) && Sub(inputs1, levels[level + 1])
    ensures LeftBehindNewer(v, level, Picked(inputs0, inputs1))
  {
    var inputs, files := Picked(inputs0, inputs1), levels[level];
    FinishedReady(level, files, inputs0);
    ReadyIs(level, files, inputs0);
    PickedLevels(v, levels, level, inputs0, inputs1);
    assert forall t :: InLevel(v, level, t) ==> t in TablesOf(files);
    hide LevelsOrdered, Lists, InLevel, Finished, FromTwoLevels, Picked, LevelInputs;
    forall t, u, e, x |
      t in inputs && InLevel(v, level, t) && InLevel(v, level, u) && u !in inputs &&
      e in t.entries && x in u.entries && e.key == x.key
      ensures e.seqno < x.seqno
    {
      var f :| f in files && f.table == t;
      var g :| g in files && g.table == u;
      FinishedNewer(level, files, inputs0, f, e, g, x);
    }
  }

  lemma PickedIffOverlap(v: Version, levels: seq<seq<File>>, level: nat, inputs0: seq<File>, inputs1: seq<File>, a: Key, b: Key, u: Table)
    requires Ordered(v) && Lists(v, levels) && level < DEEP_LEVELS && u in v.deep[level]
    requires Finished(level, levels[level], inputs0) && Hull(inputs0, a, b) && inputs1 == Touching(levels[level + 1], a, b)
    ensures u in Picked(inputs0, inputs1) <==> Overlap(EntriesOf(LevelInputs(v, level, Picked(inputs0, inputs1))), u.entries)
  {
    FinishedReady(level, levels[level], inputs0);
    ReadyIs(level, levels[level], inputs0);
    PickedLevels(v, levels, level, inputs0, inputs1);
    assert InLevel(v, level + 1, u);
    var g :| g in levels[level + 1] && g.table == u;
    assert Bounds(g) && AllBounds(inputs0);
    hide LevelsOrdered, Lists, InLevel, Finished, FromTwoLevels, Hull, LevelInputs, AllBounds, Bounds, Overlap, EntriesOf;
    NextOverlaps(inputs0, a, b, g);
  }

  // -------------------------------------------------------------- Version::Get

  /** Files sorted by their first key, of tables that do not interleave, are in order. */
  lemma SortedArranged(files: seq<File>)
    requires AllBounds(files) && SortedRun(TablesOf(files))
    requires forall i, j :: 0 <= i < j < |files| ==> Before(files[i].smallest, files[j].smallest)
    ensures Arranged(files)
  {
    forall i, j | 0 <= i < j < |files| ensures Before(files[i].largest, files[j].smallest) {
      var f, g := files[i], files[j];
      assert f in files && g in files && Bounds(f) && Bounds(g);
      assert f.table in TablesOf(files) && g.table in TablesOf(files);
      if f.table == g.table {
        assert false;
      } else if AllBefore(g.table, f.table) {
        assert false;
      }
    }
  }

  lemma NoneVisible(es: set<Entry>, k: Key, t: nat)
    ensures Latest(es, k, t).Some? <==> Visible(es, k, t)
  {
    LatestNone(es, k, t);
  }

  lemma GetFrom(layers: seq<set<Entry>>, n: nat, k: Key, t: nat)
    requires n < |layers|
    ensures Get(layers[n..], k, t) == if Latest(layers[n], k, t).Some? then Latest(layers[n], k, t) else Get(layers[n + 1..], k, t)
  {
    NoneVisible(layers[n], k, t);
    assert layers[n..][1..] == layers[n + 1..];
  }

  lemma NotInRange(f: File, k: Key, t: nat)
    requires Bounds(f) && !Holds(f, k)
    ensures Latest(f.table.entries, k, t) == None
  {
    forall e | e in f.table.entries ensures e.key != k { EntryHeld(f, e); }
    LatestNone(f.table.entries, k, t);
  }

  lemma LevelUnique(v: Version, levels: seq<seq<File>>, l: nat)
    requires Lists(v, levels) && 0 < l < |levels| && UniqueSeq(Contents(v))
    ensures UniqueSeq(EntriesOf(TablesOf(levels[l]))) && EntriesOf(TablesOf(levels[l])) == EntriesOf(v.deep[l - 1])
  {
    assert forall t :: t in v.deep[l - 1] <==> InLevel(v, l, t);
    assert TablesOf(levels[l]) == v.deep[l - 1];
    forall e | e in EntriesOf(v.deep[l - 1]) ensures e in Contents(v) {
      var t :| t in v.deep[l - 1] && e in t.entries;
      assert t in Tables(v);
    }
  }

  /**
   Version::Get. `l0` are the files of level 0 with the highest numbers first;
   `look` reads one table. One file of each deeper level is enough: what is
   found is what a search of all layers finds.
   */
  method VersionGet(ghost v: Version, l0: seq<File>, levels: seq<seq<File>>, k: Key, t: nat, look: Table -> Option<Entry>)
    returns (r: Option<Entry>)
    requires Lists(v, levels) && UniqueSeq(Contents(v)) && AllBounds(l0)
    requires |l0| == |v.l0| && forall i :: 0 <= i < |l0| ==> l0[i].table == v.l0[i]
    requires forall x :: look(x) == Latest(x.entries, k, t)
    ensures r == Get(Layers(v), k, t)
  {
    hide Get, Latest, Lists, UniqueSeq, AllBounds, Bounds, Arranged, Contents;
    ghost var layers, n := Layers(v), |l0|;
    assert layers[0..] == layers && |levels| == DEEP_LEVELS + 1 == |v.deep| + 1 by { ListsLevels(v, levels); }
    for i := 0 to |l0|
      invariant Get(layers, k, t) == Get(layers[i..], k, t)
    {
      var f := l0[i];
      assert layers[i] == f.table.entries;
      GetFrom(layers, i, k, t);
      if k >= f.smallest.key && k <= f.largest.key {
        r := look(f.table);
        if r.Some? { return; }
      } else {
        assert Bounds(f) by { BoundsAt(l0, i); }
        NotInRange(f, k, t);
      }
    }
    for l := 1 to |levels|
      invariant Get(layers, k, t) == Get(layers[n + l - 1..], k, t)
    {
      assert layers[n + l - 1] == EntriesOf(v.deep[l - 1]);
      GetFrom(layers, n + l - 1, k, t);
      LevelUnique(v, levels, l);
      ListsLevel(v, levels, l);
      var index := FindFile(levels[l], k, t);
      FoundDecides(levels[l], k, t, index);
      if index < |levels[l]| && k >= levels[l][index].smallest.key {
        r := look(levels[l][index].table);
        if r.Some? { return; }
      }
    }
    r := None;
    NoLayers(layers[n + |levels| - 1..], k, t);
  }

  lemma ListsLevels(v: Version, levels: seq<seq<File>>)
    requires Lists(v, levels)
    ensures |levels| == DEEP_LEVELS + 1 == |v.deep| + 1
  {
  }

  lemma ListsLevel(v: Version, levels: seq<seq<File>>, l: nat)
    requires Lists(v, levels) && 0 < l < |levels|
    ensures Arranged(levels[l])
  {
  }

  lemma BoundsAt(files: seq<File>, i: nat)
    requires AllBounds(files) && i < |files|
    ensures Bounds(files[i])
  {
  }

  lemma NoLayers(layers: seq<set<Entry>>, k: Key, t: nat)
    requires layers == []
    ensures Get(layers, k, t) == None
  {
  }
}
