/**
 dbformat: internal keys, which are a user key followed by a 64-bit tag packing
 sequence number and type, their order, and the shortened keys of index blocks.
 */
module InternalKeys {
  import opened Bytes
  import opened Wire
  import Versions

  const MAX_SEQUENCE := Versions.MAX_SEQUENCE
  const TYPE_FOR_SEEK := 1

  /** type 0 is a deletion, 1 a value. */
  datatype Parsed = Parsed(user: Bytes, sequence: nat, kind: nat)

  predicate Fits(k: Parsed) { k.sequence <= MAX_SEQUENCE && k.kind <= 1 }

  /** PackSequenceAndType. */
  function Pack(sequence: nat, kind: nat): (tag: nat)
    requires sequence <= MAX_SEQUENCE && kind <= 1
    ensures tag < TWO64 && tag / 256 == sequence && tag % 256 == kind
  {
    sequence * 256 + kind
  }

  /** AppendInternalKey to an empty string. */
  function Append(k: Parsed): (b: Bytes)
    requires Fits(k)
    ensures |b| == |k.user| + 8
  {
    k.user + LittleEndian(Pack(k.sequence, k.kind), 8)
  }

  function User(b: Bytes): Bytes
    requires |b| >= 8
  {
    b[..|b| - 8]
  }

  function Tag(b: Bytes): nat
    requires |b| >= 8
  {
    FromLittleEndian(b[|b| - 8..])
  }

  /** ParseInternalKey. */
  function Parse(b: Bytes): Option<Parsed> {
    if |b| < 8 || Tag(b) % 256 > 1 then None else Some(Parsed(User(b), Tag(b) / 256, Tag(b) % 256))
  }

  lemma TagOf(user: Bytes, tag: nat)
    requires tag < TWO64
    ensures var b := user + LittleEndian(tag, 8); |b| >= 8 && User(b) == user && Tag(b) == tag
  {
    hide LittleEndian, FromLittleEndian, Pow2;
    Pow2Words();
    LittleEndianInverse(tag, 8);
    var b := user + LittleEndian(tag, 8);
    assert b[..|b| - 8] == user && b[|b| - 8..] == LittleEndian(tag, 8);
  }

  lemma TagBelow(b: Bytes)
    requires |b| >= 8
    ensures Tag(b) < TWO64 && b == User(b) + LittleEndian(Tag(b), 8)
  {
    hide LittleEndian, FromLittleEndian, Pow2;
    Pow2Words();
    LittleEndianOf(b[|b| - 8..]);
    FromLittleEndianBelow(b[|b| - 8..]);
  }

  /** The trailer: one byte for the kind, then the sequence number, lowest byte first. */
  lemma Trailer(k: Parsed)
    requires Fits(k)
    ensures Append(k) == k.user + [k.kind] + LittleEndian(k.sequence, 7)
  {
    var tag := Pack(k.sequence, k.kind);
    assert LittleEndian(tag, 8) == [k.kind] + LittleEndian(k.sequence, 7);
    hide LittleEndian;
  }

  /** Parsing undoes appending, for every key that fits. */
  lemma ParseAppend(k: Parsed)
    requires Fits(k)
    ensures Parse(Append(k)) == Some(k)
  {
    TagOf(k.user, Pack(k.sequence, k.kind));
    hide LittleEndian, FromLittleEndian;
  }

  /** And appending undoes parsing, for every byte string that parses. */
  lemma AppendParse(b: Bytes)
    requires Parse(b).Some?
    ensures Fits(Parse(b).value) && Append(Parse(b).value) == b
  {
    TagBelow(b);
    hide LittleEndian, FromLittleEndian;
  }

  // -------------------------------------------------------------------- order

  datatype Comparator = Comparator(
    compare: (Bytes, Bytes) -> int,
    separator: (Bytes, Bytes) -> Bytes,
    successor: Bytes -> Bytes
  )

  /** A three-way comparison of a total order. */
  ghost predicate TotalOrder(compare: (Bytes, Bytes) -> int) {
    && (forall a, b :: compare(a, b) < 0 <==> compare(b, a) > 0)
    && (forall a, b, c :: compare(a, b) <= 0 && compare(b, c) <= 0 ==> compare(a, c) <= 0)
  }

  /** What comparator.h asks of a user comparator. */
  ghost predicate Contract(c: Comparator) {
    && TotalOrder(c.compare)
    && (forall a, b :: c.compare(a, b) < 0 ==> c.compare(a, c.separator(a, b)) <= 0 && c.compare(c.separator(a, b), b) < 0)
    && (forall a :: c.compare(a, c.successor(a)) <= 0)
  }

  /** InternalKeyComparator::Compare; shorter strings cannot be internal keys. */
  function Compare(c: Comparator, a: Bytes, b: Bytes): int
    requires |a| >= 8 && |b| >= 8
  {
    var r := c.compare(User(a), User(b));
    if r != 0 then r else if Tag(a) > Tag(b) then -1 else if Tag(a) < Tag(b) then 1 else 0
  }

  /** Increasing user key, then decreasing sequence number: a total order. */
  lemma CompareOrder(c: Comparator, x: Bytes, y: Bytes, z: Bytes)
    requires TotalOrder(c.compare) && |x| >= 8 && |y| >= 8 && |z| >= 8
    ensures Compare(c, x, y) < 0 <==> Compare(c, y, x) > 0
    ensures Compare(c, x, y) <= 0 && Compare(c, y, z) <= 0 ==> Compare(c, x, z) <= 0
    ensures Compare(c, x, y) == 0 <==> c.compare(User(x), User(y)) == 0 && Tag(x) == Tag(y)
  {
    hide Tag, User;
    TiesMeet(c.compare, User(x), User(y), User(z));
  }

  /** Between two tied keys there are only ties. */
  lemma TiesMeet(compare: (Bytes, Bytes) -> int, u: Bytes, v: Bytes, w: Bytes)
    requires TotalOrder(compare)
    ensures compare(u, v) <= 0 && compare(v, w) <= 0 ==> compare(u, w) <= 0
    ensures compare(u, v) <= 0 && compare(v, w) <= 0 && compare(u, w) == 0 ==> compare(u, v) == 0 && compare(v, w) == 0
    ensures compare(u, v) < 0 <==> compare(v, u) > 0
    ensures compare(u, v) == 0 <==> compare(v, u) == 0
  {
    if compare(u, v) <= 0 && compare(v, w) <= 0 && compare(u, w) == 0 {
      assert compare(w, u) <= 0;
      assert compare(v, u) <= 0;
      assert compare(w, v) <= 0;
    }
  }

  /** When the user comparator tells all keys apart, so does this one. */
  lemma CompareZero(c: Comparator, x: Bytes, y: Bytes)
    requires |x| >= 8 && |y| >= 8 && forall a, b :: c.compare(a, b) == 0 <==> a == b
    ensures Compare(c, x, y) == 0 <==> x == y
  {
    TagBelow(x);
    TagBelow(y);
    hide Tag, User;
  }

  /** The key LookupKey builds. */
  function Lookup(user: Bytes, s: nat): Bytes
    requires s <= MAX_SEQUENCE
  {
    Append(Parsed(user, s, TYPE_FOR_SEEK))
  }

  /** A version of the key sorts at or after its lookup key exactly when it is old enough to be seen. */
  lemma LookupFinds(c: Comparator, k: Parsed, user: Bytes, s: nat)
    requires Fits(k) && s <= MAX_SEQUENCE && c.compare(k.user, user) == 0
    ensures Compare(c, Append(k), Lookup(user, s)) >= 0 <==> k.sequence <= s
  {
    TagOf(k.user, Pack(k.sequence, k.kind));
    TagOf(user, Pack(s, TYPE_FOR_SEEK));
    hide Tag, User, LittleEndian, FromLittleEndian;
  }

  /** And all versions of a smaller user key before it, all of a larger one after it. */
  lemma LookupApart(c: Comparator, k: Parsed, user: Bytes, s: nat)
    requires Fits(k) && s <= MAX_SEQUENCE && c.compare(k.user, user) != 0
    ensures Compare(c, Append(k), Lookup(user, s)) == c.compare(k.user, user)
  {
    TagOf(k.user, Pack(k.sequence, k.kind));
    TagOf(user, Pack(s, TYPE_FOR_SEEK));
    hide Tag, User, LittleEndian, FromLittleEndian;
  }

  // --------------------------------------------------------- shortened keys

  const EARLIEST: nat := MAX_SEQUENCE * 256 + TYPE_FOR_SEEK

  /** The user key became shorter but larger: worth replacing. */
  predicate Shorter(c: Comparator, user: Bytes, tmp: Bytes) {
    |tmp| < |user| && c.compare(user, tmp) < 0
  }

  /** InternalKeyComparator::FindShortestSeparator. */
  function Separator(c: Comparator, start: Bytes, limit: Bytes): Bytes
    requires |start| >= 8 && |limit| >= 8
  {
    var tmp := c.separator(User(start), User(limit));
    if Shorter(c, User(start), tmp) then tmp + LittleEndian(EARLIEST, 8) else start
  }

  /** InternalKeyComparator::FindShortSuccessor. */
  function Successor(c: Comparator, key: Bytes): Bytes
    requires |key| >= 8
  {
    var tmp := c.successor(User(key));
    if Shorter(c, User(key), tmp) then tmp + LittleEndian(EARLIEST, 8) else key
  }

  /**
   Between two internal keys the separator is in [start, limit) unless both are
   versions of one user key and the user comparator, whose contract says nothing
   about equal keys, offers a shorter and larger one all the same.
   */
  lemma SeparatorBetween(c: Comparator, start: Bytes, limit: Bytes)
    requires Contract(c) && |start| >= 8 && |limit| >= 8 && Compare(c, start, limit) < 0
    ensures var r := Separator(c, start, limit);
            && |r| >= 8 && Compare(c, start, r) <= 0
            && (Compare(c, r, limit) < 0 <==>
                c.compare(User(start), User(limit)) != 0 || !Shorter(c, User(start), c.separator(User(start), User(limit))))
  {
    var us, ul := User(start), User(limit);
    var tmp := c.separator(us, ul);
    TagOf(tmp, EARLIEST);
    CompareOrder(c, start, start, limit);
    hide Tag, User, LittleEndian, FromLittleEndian;
    TiesMeet(c.compare, us, us, ul);
    if c.compare(us, ul) == 0 && Shorter(c, us, tmp) {
      LargerThanTie(c.compare, us, ul, tmp);
    }
  }

  /** A comparator within its contract that shortens equal keys. */
  const ODD := Comparator((a, b) => Lexical(a, b), (a: Bytes, b: Bytes) => if Lexical(a, b) < 0 then a else [255], (a: Bytes) => a)

  /** With it the separator of two versions of one key comes after both. */
  lemma SeparatorMayOvershoot()
    ensures Contract(ODD)
    ensures var start, limit := Append(Parsed([0, 0], 5, 1)), Append(Parsed([0, 0], 3, 1));
            Compare(ODD, start, limit) < 0 && Compare(ODD, Separator(ODD, start, limit), limit) > 0
  {
    OddContract();
    var u: Bytes := [0, 0];
    TagOf(u, Pack(5, 1));
    TagOf(u, Pack(3, 1));
    TagOf([255], EARLIEST);
    hide Tag, User, LittleEndian, FromLittleEndian, Contract;
    assert Lexical(u, [255]) < 0;
  }

  lemma OddContract()
    ensures Contract(ODD)
  {
    forall a, b, c
      ensures Lexical(a, b) < 0 <==> Lexical(b, a) > 0
      ensures Lexical(a, b) <= 0 && Lexical(b, c) <= 0 ==> Lexical(a, c) <= 0
      ensures Lexical(a, a) == 0
    {
      LexicalOrder(a, b, c);
      LexicalOrder(a, a, a);
    }
    hide Lexical;
  }

  lemma LargerThanTie(compare: (Bytes, Bytes) -> int, u: Bytes, v: Bytes, t: Bytes)
    requires TotalOrder(compare) && compare(u, v) == 0 && compare(u, t) < 0
    ensures compare(t, v) > 0
  {
    assert compare(v, u) <= 0 && compare(u, v) <= 0;
    assert compare(t, v) <= 0 ==> compare(t, u) <= 0;
  }

  lemma SuccessorAfter(c: Comparator, key: Bytes)
    requires Contract(c) && |key| >= 8
    ensures |Successor(c, key)| >= 8 && Compare(c, key, Successor(c, key)) <= 0
  {
    TagOf(c.successor(User(key)), EARLIEST);
    CompareOrder(c, key, key, key);
    hide Tag, User, LittleEndian, FromLittleEndian;
  }

  // ------------------------------------------------- the bytewise comparator

  /** Slice::compare. */
  function Lexical(a: Bytes, b: Bytes): int {
    if a == [] && b == [] then 0
    else if a == [] then -1
    else if b == [] then 1
    else if a[0] != b[0] then a[0] - b[0]
    else Lexical(a[1..], b[1..])
  }

  lemma {:induction false} LexicalOrder(a: Bytes, b: Bytes, c: Bytes)
    ensures Lexical(a, b) < 0 <==> Lexical(b, a) > 0
    ensures Lexical(a, b) <= 0 && Lexical(b, c) <= 0 ==> Lexical(a, c) <= 0
    ensures Lexical(a, b) == 0 <==> a == b
    decreases |a| + |b| + |c|
  {
    if a != [] && b != [] {
      assert a == [a[0]] + a[1..] && b == [b[0]] + b[1..];
      LexicalOrder(a[1..], b[1..], if c == [] then c else c[1..]);
    }
  }

  lemma {:induction false} LexicalPrefix(p: Bytes, a: Bytes, b: Bytes)
    ensures Lexical(p + a, p + b) == Lexical(a, b)
  {
    if p == [] {
      assert p + a == a && p + b == b;
    } else {
      assert (p + a)[1..] == p[1..] + a && (p + b)[1..] == p[1..] + b;
      LexicalPrefix(p[1..], a, b);
    }
  }

  lemma LexicalAt(p: Bytes, x: Byte, a: Bytes, y: Byte, b: Bytes)
    requires x < y
    ensures Lexical(p + [x] + a, p + [y] + b) < 0
  {
    LexicalPrefix(p, [x] + a, [y] + b);
    assert p + [x] + a == p + ([x] + a) && p + [y] + b == p + ([y] + b);
  }

  /** BytewiseComparatorImpl::FindShortestSeparator: never past limit, and start itself unless it comes before limit. */
  method ShortestSeparator(start: Bytes, limit: Bytes) returns (r: Bytes)
    ensures Lexical(start, limit) < 0 ==> Lexical(start, r) <= 0 && Lexical(r, limit) < 0
    ensures Lexical(start, limit) >= 0 ==> r == start
    ensures |r| <= |start|
  {
    var min := if |start| < |limit| then |start| else |limit|;
    var d := 0;
    while d < min && start[d] == limit[d]
      invariant d <= min && start[..d] == limit[..d]
    {
      assert start[..d + 1] == start[..d] + [start[d]] && limit[..d + 1] == limit[..d] + [limit[d]];
      d := d + 1;
    }
    r := start;
    LexicalOrder(start, start, start);
    if d < min && start[d] < 0xFF && start[d] as int + 1 < limit[d] {
      var p, x := start[..d], start[d];
      r := p + [x + 1];
      assert start == p + [x] + start[d + 1..] && limit == p + [limit[d]] + limit[d + 1..] && r == p + [x + 1] + [];
      LexicalAt(p, x, start[d + 1..], x + 1, []);
      LexicalAt(p, x + 1, [], limit[d], limit[d + 1..]);
      LexicalAt(p, x, start[d + 1..], limit[d], limit[d + 1..]);
    }
  }

  /** BytewiseComparatorImpl::FindShortSuccessor: the first byte that can grow does, the rest goes. */
  method ShortSuccessor(key: Bytes) returns (r: Bytes)
    ensures Lexical(key, r) <= 0 && |r| <= |key|
    ensures r == key <==> forall i :: 0 <= i < |key| ==> key[i] == 0xFF
  {
    for i := 0 to |key|
      invariant forall k :: 0 <= k < i ==> key[k] == 0xFF
    {
      if key[i] != 0xFF {
        r := key[..i] + [key[i] + 1];
        assert key == key[..i] + [key[i]] + key[i + 1..] && r == key[..i] + [key[i] + 1] + [];
        LexicalAt(key[..i], key[i], key[i + 1..], key[i] + 1, []);
        assert r[i] != key[i];
        return;
      }
    }
    LexicalOrder(key, key, key);
    r := key;
  }

  // ---------------------------------------------------------------- LookupKey

  method CopyTo(dst: array<Byte>, at: nat, b: Bytes)
    requires at + |b| <= dst.Length
    modifies dst
    ensures dst[..at + |b|] == old(dst[..at]) + b
  {
    for i := 0 to |b|
      invariant dst[..at + i] == old(dst[..at]) + b[..i]
    {
      dst[at + i] := b[i];
      assert dst[..at + i + 1] == dst[..at + i] + [b[i]] && b[..i + 1] == b[..i] + [b[i]];
    }
    assert b[..|b|] == b;
  }

  /** LookupKey::LookupKey: a length, the user key and the tag, within the size it estimates. */
  method BuildLookup(user: Bytes, s: nat) returns (dst: array<Byte>, kstart: nat, end: nat)
    requires s <= MAX_SEQUENCE && |user| + 8 < TWO32
    ensures fresh(dst) && dst.Length == |user| + 13 && kstart <= end <= dst.Length
    ensures dst[..kstart] == Wire.Varint(|user| + 8) && dst[kstart..end] == Lookup(user, s)
  {
    var size, tag := Wire.Varint(|user| + 8), LittleEndian(Pack(s, TYPE_FOR_SEEK), 8);
    SizeBytes(|user| + 8);
    hide Wire.Varint, LittleEndian, Pack;
    dst := new Byte[|user| + 13](_ => 0);
    CopyTo(dst, 0, size);
    CopyTo(dst, |size|, user);
    CopyTo(dst, |size| + |user|, tag);
    kstart, end := |size|, |size| + |user| + 8;
    Slices(dst[..end], size, user, tag);
    assert dst[..kstart] == dst[..end][..kstart] && dst[kstart..end] == dst[..end][kstart..];
  }

  lemma Slices(all: Bytes, a: Bytes, b: Bytes, c: Bytes)
    requires all == [] + a + b + c
    ensures all[..|a|] == a && all[|a|..] == b + c
  {
  }

  lemma SizeBytes(n: nat)
    requires n < TWO32
    ensures 1 <= |Wire.Varint(n)| <= 5
  {
    hide Pow2;
    Pow2Words();
    VarintLength(n, 5);
  }
}
