/**
 DBIter: the iterator that collapses the versions of each user key in a sorted
 internal list into one entry, in both directions, proved to be a cursor over
 exactly the keys that are live at its sequence number.
 */
module DbIter {
  import opened Bytes
  import opened Versions
  import opened Compaction

  // ---------------------------------------------------- the specification

  predicate SortedEntries(list: seq<Entry>) {
    forall i, j :: 0 <= i < j < |list| ==> Before(list[i], list[j])
  }

  /** Entry `i` is the version of its key that a read at `t` returns, and a value. */
  predicate Shows(list: seq<Entry>, t: nat, i: int) {
    && 0 <= i < |list| && list[i].seqno <= t && list[i].op.Put?
    && forall j :: 0 <= j < i && list[j].key == list[i].key ==> t < list[j].seqno
  }

  ghost predicate Live(list: seq<Entry>, t: nat, k: Key) {
    exists i :: Shows(list, t, i) && list[i].key == k
  }

  /** Where a cursor over the live keys stands. */
  type Cursor = Option<Key>

  ghost predicate IsLeastFrom(list: seq<Entry>, t: nat, low: Option<Key>, strict: bool, c: Cursor) {
    && (c.Some? ==> Live(list, t, c.value) && Past(low, strict, c.value))
    && forall k :: Live(list, t, k) && Past(low, strict, k) ==> c.Some? && c.value <= k
  }

  predicate Past(low: Option<Key>, strict: bool, k: Key) {
    low.Some? ==> if strict then low.value < k else low.value <= k
  }

  ghost predicate IsGreatestBelow(list: seq<Entry>, t: nat, high: Option<Key>, c: Cursor) {
    && (c.Some? ==> Live(list, t, c.value) && (high.Some? ==> c.value < high.value))
    && forall k :: Live(list, t, k) && (high.Some? ==> k < high.value) ==> c.Some? && k <= c.value
  }

  /** The keys shown are those the engine's reads find, with the same values. */
  lemma LiveIsRead(list: seq<Entry>, t: nat, k: Key, es: set<Entry>)
    requires SortedEntries(list) && UniqueSeq(es) && es == (set i | 0 <= i < |list| :: list[i])
    ensures Live(list, t, k) <==> Read(es, k, t).Some?
    ensures forall i :: Shows(list, t, i) && list[i].key == k ==> Read(es, k, t) == Some(list[i].op.value)
  {
    forall i | Shows(list, t, i) && list[i].key == k ensures Read(es, k, t) == Some(list[i].op.value) {
      assert Newest(es, k, t, list[i]) by {
        assert list[i] in es;
        forall f | f in es && f.key == k && f.seqno <= t ensures f.seqno <= list[i].seqno {
          var j :| 0 <= j < |list| && list[j] == f;
          assert j == i || (i < j && Before(list[i], list[j]));
        }
      }
      LatestIs(es, k, t, list[i]);
    }
    if Read(es, k, t).Some? {
      LatestNone(es, k, t);
      NewestExists(es, k, t);
      var e :| Newest(es, k, t, e);
      LatestIs(es, k, t, e);
      var i :| 0 <= i < |list| && list[i] == e;
      forall j | 0 <= j < i && list[j].key == k ensures t < list[j].seqno {
        assert list[j] in es && Before(list[j], list[i]);
      }
      assert Shows(list, t, i);
    }
  }

  // ------------------------------------------------- scanning the versions

  predicate InSight(list: seq<Entry>, t: nat, i: int) {
    0 <= i < |list| && list[i].seqno <= t
  }

  /** Every reachable key past `h` is wanted, and nothing wanted is at or before it. */
  ghost predicate Hides(list: seq<Entry>, t: nat, p: int, h: Key, low: Option<Key>, strict: bool) {
    && (forall i :: Shows(list, t, i) && p <= i && Past(low, strict, list[i].key) ==> h < list[i].key)
    && (forall i :: InSight(list, t, i) && i < p ==> list[i].key <= h)
    && (forall i :: InSight(list, t, i) && p <= i ==> h <= list[i].key)
    && (forall k :: h < k ==> Past(low, strict, k))
  }

  /** Nothing seen so far shares a key with what is ahead, and all of that is wanted. */
  ghost predicate Clear(list: seq<Entry>, t: nat, p: int, low: Option<Key>, strict: bool) {
    && (forall i, j :: InSight(list, t, i) && i < p <= j < |list| ==> list[i].key != list[j].key)
    && (forall j :: 0 <= j < |list| && p <= j ==> Past(low, strict, list[j].key))
  }

  /** The state of a forward scan about to look at entry `p`. */
  ghost predicate Scan(list: seq<Entry>, t: nat, p: int, hidden: Option<Key>, low: Option<Key>, strict: bool) {
    && SortedEntries(list) && 0 <= p < |list|
    && (forall i :: Shows(list, t, i) && i < p ==> !Past(low, strict, list[i].key))
    && (hidden.Some? ==> Hides(list, t, p, hidden.value, low, strict))
    && (hidden == None ==> Clear(list, t, p, low, strict))
  }

  lemma ScanDeletion(list: seq<Entry>, t: nat, p: int, hidden: Option<Key>, low: Option<Key>, strict: bool)
    requires Scan(list, t, p, hidden, low, strict) && p + 1 < |list|
    requires InSight(list, t, p) && list[p].op.Delete?
    ensures Scan(list, t, p + 1, Some(list[p].key), low, strict)
  {
    var h := list[p].key;
    forall i | Shows(list, t, i) && p + 1 <= i ensures h < list[i].key {
      assert Before(list[p], list[i]);
    }
    forall i | InSight(list, t, i) && i < p + 1 ensures list[i].key <= h {
      assert i == p || Before(list[i], list[p]);
    }
    forall i | InSight(list, t, i) && p + 1 <= i ensures h <= list[i].key {
      assert Before(list[p], list[i]);
    }
  }

  lemma ScanPasses(list: seq<Entry>, t: nat, p: int, hidden: Option<Key>, low: Option<Key>, strict: bool)
    requires Scan(list, t, p, hidden, low, strict) && p + 1 < |list|
    requires InSight(list, t, p) ==> hidden.Some? && list[p].key <= hidden.value
    ensures Scan(list, t, p + 1, hidden, low, strict)
  {
  }

  lemma ScanFinds(list: seq<Entry>, t: nat, p: int, hidden: Option<Key>, low: Option<Key>, strict: bool)
    requires Scan(list, t, p, hidden, low, strict)
    requires InSight(list, t, p) && list[p].op.Put? && (hidden == None || hidden.value < list[p].key)
    ensures Shows(list, t, p) && IsLeastFrom(list, t, low, strict, Some(list[p].key))
  {
    assert Shows(list, t, p);
    forall k | Live(list, t, k) && Past(low, strict, k) ensures list[p].key <= k {
      var i :| Shows(list, t, i) && list[i].key == k;
      assert i == p || Before(list[p], list[i]);
    }
  }

  lemma ScanEnds(list: seq<Entry>, t: nat, p: int, hidden: Option<Key>, low: Option<Key>, strict: bool)
    requires Scan(list, t, p, hidden, low, strict) && p + 1 == |list|
    requires InSight(list, t, p) && list[p].op.Put? ==> hidden.Some? && list[p].key <= hidden.value
    ensures IsLeastFrom(list, t, low, strict, None)
  {
  }

  /** Nothing a reader may see lies strictly between `a` and `b`. */
  predicate Unseen(list: seq<Entry>, t: nat, a: int, b: int) {
    forall j :: a < j < b ==> !InSight(list, t, j)
  }

  /** A backward scan's candidate: the last visible value it met. */
  datatype Candidate = Candidate(key: Key, value: Bytes)

  predicate Holds(list: seq<Entry>, t: nat, p: int, c: Candidate, j: int) {
    p < j && InSight(list, t, j) && list[j].key == c.key && list[j].op == Put(c.value) && Unseen(list, t, p, j)
  }

  predicate Below(high: Option<Key>, k: Key) { high.Some? ==> k < high.value }

  /** The state of a backward scan about to look at entry `p`. */
  ghost predicate BackScan(list: seq<Entry>, t: nat, p: int, c: Option<Candidate>, high: Option<Key>) {
    && SortedEntries(list) && -1 <= p < |list|
    && (forall i :: 0 <= i <= p ==> Below(high, list[i].key))
    && (c == None ==> forall i :: Shows(list, t, i) && p < i ==> !Below(high, list[i].key))
    && (c.Some? ==>
          && Below(high, c.value.key)
          && (exists j :: Holds(list, t, p, c.value, j))
          && forall i :: Shows(list, t, i) && p < i && Below(high, list[i].key) ==> list[i].key <= c.value.key)
  }

  lemma BackInvisible(list: seq<Entry>, t: nat, p: int, c: Option<Candidate>, high: Option<Key>)
    requires BackScan(list, t, p, c, high) && 0 <= p && !InSight(list, t, p)
    ensures BackScan(list, t, p - 1, c, high)
  {
    if c.Some? {
      var j :| Holds(list, t, p, c.value, j);
      assert Holds(list, t, p - 1, c.value, j);
    }
  }

  /** The next visible version, of the same key or when nothing is held, takes over. */
  lemma BackTakes(list: seq<Entry>, t: nat, p: int, c: Option<Candidate>, high: Option<Key>)
    requires BackScan(list, t, p, c, high) && InSight(list, t, p)
    requires c == None || c.value.key <= list[p].key
    ensures BackScan(list, t, p - 1, if list[p].op.Put? then Some(Candidate(list[p].key, list[p].op.value)) else None, high)
  {
    if c.Some? {
      var j :| Holds(list, t, p, c.value, j);
      assert Before(list[p], list[j]);
      assert list[p].key == c.value.key;
    }
    assert forall i :: p < i < |list| ==> Before(list[p], list[i]);
    assert forall i :: Shows(list, t, i) && p - 1 < i && Below(high, list[i].key)
             ==> list[p].op.Put? && list[i].key <= list[p].key;
    if list[p].op.Put? {
      assert Holds(list, t, p - 1, Candidate(list[p].key, list[p].op.value), p);
    }
  }

  lemma BackStops(list: seq<Entry>, t: nat, p: int, c: Candidate, high: Option<Key>)
    requires BackScan(list, t, p, Some(c), high)
    requires p == -1 || (InSight(list, t, p) && list[p].key < c.key)
    ensures IsGreatestBelow(list, t, high, Some(c.key))
    ensures exists j :: Holds(list, t, p, c, j) && Shows(list, t, j)
  {
    var j :| Holds(list, t, p, c, j);
    assert forall i :: 0 <= i < p ==> Before(list[i], list[p]);
    forall i | p < i < j ensures t < list[i].seqno { assert !InSight(list, t, i); }
    assert Shows(list, t, j);
    forall k | Live(list, t, k) && Below(high, k) ensures k <= c.key {
      var i :| Shows(list, t, i) && list[i].key == k;
      assert i <= p ==> i == p || Before(list[i], list[p]);
    }
  }

  lemma BackEmpty(list: seq<Entry>, t: nat, high: Option<Key>)
    requires BackScan(list, t, -1, None, high)
    ensures IsGreatestBelow(list, t, high, None)
  {
  }

  /** `e` sorts before the lookup key for (target, t). */
  predicate AheadOf(e: Entry, target: Key, t: nat) {
    e.key < target || (e.key == target && t < e.seqno)
  }

  lemma SeekStarts(list: seq<Entry>, t: nat, p: int, target: Key)
    requires SortedEntries(list) && 0 <= p < |list| && !AheadOf(list[p], target, t)
    requires forall i :: 0 <= i < p ==> AheadOf(list[i], target, t)
    ensures Scan(list, t, p, None, Some(target), false)
  {
    forall j | p <= j < |list| ensures target <= list[j].key {
      assert j == p || Before(list[p], list[j]);
    }
  }

  lemma NextFromForward(list: seq<Entry>, t: nat, p: int)
    requires SortedEntries(list) && Shows(list, t, p)
    ensures Scan(list, t, p, Some(list[p].key), Some(list[p].key), true)
  {
    forall i | 0 <= i < |list| ensures (i < p ==> list[i].key <= list[p].key) && (p <= i ==> list[p].key <= list[i].key) {
      assert i == p || (i < p && Before(list[i], list[p])) || Before(list[p], list[i]);
    }
  }

  lemma NextFromReverse(list: seq<Entry>, t: nat, p: int, c: Candidate)
    requires SortedEntries(list) && -1 <= p < |list| && (0 <= p ==> list[p].key < c.key)
    requires exists j :: Holds(list, t, p, c, j) && Shows(list, t, j)
    ensures Scan(list, t, p + 1, Some(c.key), Some(c.key), true)
  {
    var j :| Holds(list, t, p, c, j) && Shows(list, t, j);
    forall i | 0 <= i <= p ensures list[i].key < c.key {
      assert i == p || Before(list[i], list[p]);
    }
    forall i | InSight(list, t, i) && p + 1 <= i ensures c.key <= list[i].key {
      assert i < j ==> !InSight(list, t, i);
      assert i == j || Before(list[j], list[i]);
    }
  }

  lemma PrevStarts(list: seq<Entry>, t: nat, p: int, shown: int)
    requires SortedEntries(list) && -1 <= p < shown && Shows(list, t, shown)
    requires forall i :: p < i <= shown ==> list[i].key == list[shown].key
    requires 0 <= p ==> list[p].key < list[shown].key
    ensures BackScan(list, t, p, None, Some(list[shown].key))
  {
    forall i | 0 <= i < |list| ensures (i <= p ==> list[i].key < list[shown].key) && (p < i ==> list[shown].key <= list[i].key) {
      assert i < p ==> Before(list[i], list[p]);
      assert shown < i ==> Before(list[shown], list[i]);
    }
  }

  lemma PrevFromReverse(list: seq<Entry>, t: nat, p: int, c: Candidate)
    requires SortedEntries(list) && -1 <= p < |list| && (0 <= p ==> list[p].key < c.key)
    requires exists j :: Holds(list, t, p, c, j) && Shows(list, t, j)
    ensures BackScan(list, t, p, None, Some(c.key))
  {
    var j :| Holds(list, t, p, c, j) && Shows(list, t, j);
    forall i | 0 <= i <= p ensures list[i].key < c.key {
      assert i == p || Before(list[i], list[p]);
    }
    forall i | Shows(list, t, i) && p < i ensures c.key <= list[i].key {
      assert i < j ==> !InSight(list, t, i);
      assert i == j || Before(list[j], list[i]);
    }
  }

  // --------------------------------------------------------- the iterator

  datatype Direction = Forward | Reverse

  class Iter {
    const list: seq<Entry>      // what the internal iterator walks over
    const sequence: nat
    var pos: int                // the internal iterator; -1 when it is not valid
    var direction: Direction
    var valid: bool
    var savedKey: Option<Key>
    var savedValue: Bytes

    /**
     Moving forward, the internal iterator is on the entry shown; moving
     backward, it is just before every visible entry of the saved key.
     */
    ghost predicate Valid()
      reads this
    {
      && SortedEntries(list)
      && -1 <= pos < |list|
      && (valid && direction == Forward ==> Shows(list, sequence, pos))
      && (valid && direction == Reverse ==>
            && savedKey.Some?
            && (0 <= pos ==> list[pos].key < savedKey.value)
            && exists j :: Holds(list, sequence, pos, Candidate(savedKey.value, savedValue), j) && Shows(list, sequence, j))
    }

    /** The abstract cursor. */
    ghost function At(): Cursor
      requires Valid()
      reads this
    {
      if !valid then None else if direction == Forward then Some(list[pos].key) else savedKey
    }

    constructor (list: seq<Entry>, sequence: nat)
      requires SortedEntries(list)
      ensures Valid() && At() == None && this.list == list && this.sequence == sequence
    {
      this.list, this.sequence := list, sequence;
      pos, direction, valid := -1, Forward, false;
      savedKey, savedValue := None, [];
    }

    method CurrentKey() returns (k: Key)
      requires Valid() && valid
      ensures At() == Some(k)
    {
      k := if direction == Forward then list[pos].key else savedKey.value;
    }

    method CurrentValue() returns (v: Bytes)
      requires Valid() && valid
      ensures exists i :: Shows(list, sequence, i) && At() == Some(list[i].key) && v == list[i].op.value
    {
      if direction == Forward {
        v := list[pos].op.value;
        assert Shows(list, sequence, pos);
      } else {
        v := savedValue;
      }
    }

    /** Scans forward to the first entry to show, past `skip` if there is one. */
    method FindNextUserEntry(skip: Option<Key>, ghost low: Option<Key>, ghost strict: bool)
      requires Scan(list, sequence, pos, skip, low, strict) && direction == Forward
      modifies this`pos, this`valid, this`savedKey
      ensures Valid()
      ensures IsLeastFrom(list, sequence, low, strict, At())
    {
      var hidden := skip;
      while true
        invariant Scan(list, sequence, pos, hidden, low, strict)
        decreases |list| - pos
      {
        var e := list[pos];
        if e.seqno <= sequence {
          if e.op.Put? && !(hidden.Some? && e.key <= hidden.value) {
            ScanFinds(list, sequence, pos, hidden, low, strict);
            valid, savedKey := true, None;
            return;
          }
        }
        if pos + 1 == |list| {
          ScanEnds(list, sequence, pos, hidden, low, strict);
          pos := -1;
          break;
        }
        if e.seqno <= sequence && e.op.Delete? {
          ScanDeletion(list, sequence, pos, hidden, low, strict);
          hidden := Some(e.key);
        } else {
          ScanPasses(list, sequence, pos, hidden, low, strict);
        }
        pos := pos + 1;
      }
      savedKey, valid := None, false;
    }

    /** Scans backward for the greatest live key below `high`. */
    method FindPrevUserEntry(ghost high: Option<Key>)
      requires BackScan(list, sequence, pos, None, high) && direction == Reverse
      modifies this`pos, this`valid, this`savedKey, this`savedValue, this`direction
      ensures Valid()
      ensures IsGreatestBelow(list, sequence, high, At())
    {
      var valueType := Op.Delete;     // only its kind matters
      ghost var c: Option<Candidate> := None;
      while 0 <= pos
        invariant BackScan(list, sequence, pos, c, high) && direction == Reverse
        invariant valueType.Put? == c.Some?
        invariant c.Some? ==> savedKey == Some(c.value.key) && savedValue == c.value.value
        decreases pos
      {
        var e := list[pos];
        if e.seqno <= sequence {
          if valueType.Put? && e.key < savedKey.value {
            break;
          }
          BackTakes(list, sequence, pos, c, high);
          valueType := e.op;
          if e.op.Delete? {
            savedKey, savedValue, c := None, [], None;
          } else {
            savedKey, savedValue, c := Some(e.key), e.op.value, Some(Candidate(e.key, e.op.value));
          }
        } else {
          BackInvisible(list, sequence, pos, c, high);
        }
        pos := pos - 1;
      }
      if valueType.Delete? {
        BackEmpty(list, sequence, high);
        valid, savedKey, savedValue, direction := false, None, [], Forward;
      } else {
        BackStops(list, sequence, pos, c.value, high);
        valid := true;
      }
    }

    method SeekToFirst()
      requires Valid()
      modifies this
      ensures Valid() && IsLeastFrom(list, sequence, None, false, At())
    {
      direction, savedValue := Forward, [];
      pos := if list == [] then -1 else 0;
      if 0 <= pos {
        FindNextUserEntry(None, None, false);
      } else {
        valid := false;
      }
    }

    method SeekToLast()
      requires Valid()
      modifies this
      ensures Valid() && IsGreatestBelow(list, sequence, None, At())
    {
      direction, savedValue := Reverse, [];
      pos := |list| - 1;
      FindPrevUserEntry(None);
    }

    /** The internal iterator's Seek: the first entry at or after (target, sequence). */
    method SeekInternal(target: Key)
      requires SortedEntries(list)
      modifies this`pos
      ensures -1 <= pos < |list|
      ensures forall i :: 0 <= i < (if pos == -1 then |list| else pos) ==> AheadOf(list[i], target, sequence)
      ensures 0 <= pos ==> !AheadOf(list[pos], target, sequence)
    {
      pos := 0;
      while pos < |list|
        invariant 0 <= pos <= |list|
        invariant forall i :: 0 <= i < pos ==> AheadOf(list[i], target, sequence)
      {
        if !AheadOf(list[pos], target, sequence) { return; }
        pos := pos + 1;
      }
      pos := -1;
    }

    method Seek(target: Key)
      requires Valid()
      modifies this
      ensures Valid() && IsLeastFrom(list, sequence, Some(target), false, At())
    {
      direction, savedValue, savedKey := Forward, [], None;
      SeekInternal(target);
      if 0 <= pos {
        SeekStarts(list, sequence, pos, target);
        FindNextUserEntry(None, Some(target), false);
      } else {
        valid := false;
        assert forall i :: Shows(list, sequence, i) ==> AheadOf(list[i], target, sequence);
      }
    }

    method Next()
      requires Valid() && valid
      modifies this
      ensures Valid() && IsLeastFrom(list, sequence, old(At()), true, At())
    {
      ghost var here := At();
      var skip: Key;
      if direction == Reverse {
        skip := savedKey.value;
        NextFromReverse(list, sequence, pos, Candidate(skip, savedValue));
        direction := Forward;
        if pos == -1 {
          pos := 0;               // SeekToFirst
        } else {
          pos := pos + 1;
        }
      } else {
        skip := list[pos].key;
        savedKey := Some(skip);
        NextFromForward(list, sequence, pos);
      }
      FindNextUserEntry(Some(skip), here, true);
    }

    method Prev()
      requires Valid() && valid
      modifies this
      ensures Valid() && IsGreatestBelow(list, sequence, old(At()), At())
    {
      ghost var here := At();
      if direction == Forward {
        savedKey := Some(list[pos].key);
        ghost var shown := pos;
        while true
          invariant 0 <= pos <= shown && list[pos].key == list[shown].key
          invariant direction == Forward && savedKey == Some(list[shown].key) && Shows(list, sequence, shown)
          decreases pos
        {
          pos := pos - 1;
          if pos == -1 {
            PrevStarts(list, sequence, pos, shown);
            BackEmpty(list, sequence, here);
            valid, savedKey, savedValue := false, None, [];
            return;
          }
          if list[pos].key < savedKey.value { break; }
          assert Before(list[pos], list[shown]);
        }
        PrevStarts(list, sequence, pos, shown);
        direction := Reverse;
      } else {
        PrevFromReverse(list, sequence, pos, Candidate(savedKey.value, savedValue));
      }
      FindPrevUserEntry(here);
    }
  }

  // -------------------------------------------------- whole call sequences

  datatype Call = First | Last | To(target: Key) | Forth | Back

  /** What one call does to a cursor over the sorted live keys. */
  ghost predicate Moves(list: seq<Entry>, t: nat, c: Cursor, call: Call, c': Cursor) {
    match call
    case First => IsLeastFrom(list, t, None, false, c')
    case Last => IsGreatestBelow(list, t, None, c')
    case To(target) => IsLeastFrom(list, t, Some(target), false, c')
    case Forth => if c.Some? then IsLeastFrom(list, t, c, true, c') else c' == None
    case Back => if c.Some? then IsGreatestBelow(list, t, c, c') else c' == None
  }

  /** The specification leaves no choice. */
  lemma MovesUnique(list: seq<Entry>, t: nat, c: Cursor, call: Call, a: Cursor, b: Cursor)
    requires Moves(list, t, c, call, a) && Moves(list, t, c, call, b)
    ensures a == b
  {
  }

  type Report = Option<(Key, Bytes)>

  function KeyOf(r: Report): Cursor {
    if r.Some? then Some(r.value.0) else None
  }

  /** The value reported is the one a read of that key finds. */
  ghost predicate Truthful(list: seq<Entry>, t: nat, r: Report) {
    r.Some? ==> exists j :: Shows(list, t, j) && list[j].key == r.value.0 && list[j].op.value == r.value.1
  }

  /** The reports of a cursor that makes the calls one after the other. */
  ghost predicate Tracks(list: seq<Entry>, t: nat, from: Cursor, calls: seq<Call>, reports: seq<Report>)
    requires |calls| == |reports|
  {
    calls == [] ||
    var n := |calls| - 1;
    && Tracks(list, t, from, calls[..n], reports[..n])
    && Moves(list, t, LastCursor(from, reports[..n]), calls[n], KeyOf(reports[n]))
    && Truthful(list, t, reports[n])
  }

  function LastCursor(from: Cursor, reports: seq<Report>): Cursor {
    if reports == [] then from else KeyOf(reports[|reports| - 1])
  }

  /** One call; a step from an invalid position, which the iterator forbids, is left out. */
  method Perform(it: Iter, call: Call) returns (r: Report)
    requires it.Valid()
    modifies it
    ensures it.Valid() && it.At() == KeyOf(r)
    ensures Moves(it.list, it.sequence, old(it.At()), call, it.At())
    ensures Truthful(it.list, it.sequence, r)
  {
    match call {
      case First => it.SeekToFirst();
      case Last => it.SeekToLast();
      case To(target) => it.Seek(target);
      case Forth => if it.valid { it.Next(); }
      case Back => if it.valid { it.Prev(); }
    }
    r := None;
    if it.valid {
      var k := it.CurrentKey();
      var v := it.CurrentValue();
      r := Some((k, v));
    }
  }

  /**
   Any sequence of calls, direction switches included, reports the keys of a
   cursor over the live keys and the values a read finds there.
   */
  method Drive(list: seq<Entry>, sequence: nat, calls: seq<Call>) returns (reports: seq<Report>)
    requires SortedEntries(list)
    ensures |reports| == |calls| && Tracks(list, sequence, None, calls, reports)
  {
    var it := new Iter(list, sequence);
    reports := [];
    for n := 0 to |calls|
      invariant it.Valid() && it.list == list && it.sequence == sequence && fresh(it)
      invariant |reports| == n && it.At() == LastCursor(None, reports)
      invariant Tracks(list, sequence, None, calls[..n], reports)
    {
      var r := Perform(it, calls[n]);
      assert calls[..n + 1][..n] == calls[..n] && (reports + [r])[..n] == reports;
      reports := reports + [r];
    }
    assert calls[..|calls|] == calls;
  }
}
