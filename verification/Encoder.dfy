/**
 pb_encode.c: output streams that either write to a buffer or only count, and
 the encoder that runs over them twice, first to size a submessage and then to
 write it.
 */
module Encoder {
  import opened Bytes
  import opened Wire
  import opened Schema

  /** A caller's byte buffer and the place the next byte goes. */
  class Buffer {
    const data: array<Byte>
    var used: nat

    ghost predicate Valid()
      reads this
    {
      used <= data.Length
    }

    ghost function Contents(): Bytes
      requires Valid()
      reads this, data
    {
      data[..used]
    }

    constructor (size: nat)
      ensures Valid() && fresh(data) && data.Length == size && Contents() == []
    {
      data := new Byte[size];
      used := 0;
    }

    /** buf_write. */
    method Write(b: Bytes)
      requires Valid() && used + |b| <= data.Length
      modifies this, data
      ensures Valid() && used == old(used) + |b|
      ensures Contents() == old(Contents()) + b
    {
      for i := 0 to |b|
        invariant data[..used] == old(data[..used])
        invariant data[used..used + i] == b[..i]
        modifies data
      {
        data[used + i] := b[i];
        assert data[used..used + i + 1] == data[used..used + i] + [b[i]];
        assert b[..i + 1] == b[..i] + [b[i]];
      }
      assert b[..|b|] == b;
      assert data[..used + |b|] == data[..used] + data[used..used + |b|];
      used := used + |b|;
    }
  }

  class OStream {
    const sink: Buffer?           // null: only count
    const maxSize: nat
    var bytesWritten: nat

    ghost function Repr(): set<object> {
      if sink == null then {this} else {this, sink, sink.data}
    }

    ghost predicate Valid()
      reads this, sink
    {
      sink != null ==> sink.Valid() && bytesWritten <= maxSize && sink.used + maxSize - bytesWritten <= sink.data.Length
    }

    /** What has reached the buffer; nothing ever does when only counting. */
    ghost function Contents(): Bytes
      requires Valid()
      reads this, sink, Repr()
    {
      if sink == null then [] else sink.Contents()
    }

    ghost predicate Room(n: nat)
      reads this
    {
      sink == null || bytesWritten + n <= maxSize
    }

    /** From `w` bytes and contents `c`, exactly `b` has been added. */
    ghost predicate Added(w: nat, c: Bytes, b: Bytes)
      reads this, sink, Repr()
    {
      Valid() && bytesWritten == w + |b| && Contents() == if sink == null then [] else c + b
    }

    constructor (sink: Buffer?, maxSize: nat)
      requires sink != null ==> sink.Valid() && sink.used + maxSize <= sink.data.Length
      ensures Valid() && this.sink == sink && this.maxSize == maxSize && bytesWritten == 0
    {
      this.sink, this.maxSize, bytesWritten := sink, maxSize, 0;
    }

    /** pb_write. */
    method Write(b: Bytes) returns (ok: bool)
      requires Valid()
      modifies Repr()
      ensures Valid() && ok == old(Room(|b|))
      ensures ok ==> Added(old(bytesWritten), old(Contents()), b)
    {
      if |b| > 0 && sink != null {
        if bytesWritten + |b| > maxSize { return false; }
        sink.Write(b);
      }
      assert b == [] ==> Contents() + b == Contents();
      bytesWritten := bytesWritten + |b|;
      return true;
    }

    /** pb_write(stream, NULL, size) on a stream that only counts. */
    method Count(b: nat)
      requires Valid() && sink == null
      modifies this
      ensures Valid() && bytesWritten == old(bytesWritten) + b
    {
      bytesWritten := bytesWritten + b;
    }
  }

  lemma Regroup(a: Bytes, b: Bytes, c: Bytes)
    ensures a + (b + c) == a + b + c
    ensures a + [] == a && [] + a == a
  {
  }

  /** Two additions make one. */
  lemma AddedTwice(s: OStream, w: nat, c: Bytes, b: Bytes, w': nat, c': Bytes, b': Bytes)
    requires s.Added(w', c', b') && w' == w + |b| && (s.sink != null ==> c' == c + b)
    ensures s.Added(w, c, b + b')
  {
    assert c + b + b' == c + (b + b');
  }

  /** Bytes with the top bit of the last one cleared. */
  function Closed(b: Bytes): Bytes {
    if b == [] then [] else b[..|b| - 1] + [b[|b| - 1] % 128]
  }

  lemma FillStep(before: Bytes, n: nat, value: nat)
    requires n > 0 && value < TWO64 && before + Wire.Varint(n) == Wire.Varint(value)
    ensures |before| < 10
    ensures n < 128 ==> Closed(before + [n % 128 + 128]) == Wire.Varint(value)
    ensures n >= 128 ==> before + [n % 128 + 128] + Wire.Varint(n / 128) == Wire.Varint(value)
  {
    VarintAtMostTen(value);
    VarintNonEmpty(n);
    if n < 128 {
      assert (before + [n % 128 + 128])[..|before|] == before;
    } else {
      assert before + [n % 128 + 128] + Wire.Varint(n / 128) == before + Wire.Varint(n);
    }
  }

  lemma VarintNonEmpty(n: nat)
    ensures Wire.Varint(n) != []
  {
  }

  /** The loop of pb_encode_varint: seven bits at a time into a ten byte array. */
  method FillVarint(value: nat) returns (b: Bytes)
    requires 0x7F < value < TWO64
    ensures b == Wire.Varint(value)
  {
    hide Wire.Varint, Closed;
    var buffer := new Byte[10](_ => 0);
    var n: nat, i: nat := value, 0;
    assert buffer[..0] + Wire.Varint(value) == Wire.Varint(value);
    while n > 0
      invariant i <= 10
      invariant n > 0 ==> buffer[..i] + Wire.Varint(n) == Wire.Varint(value)
      invariant n == 0 ==> i > 0 && Closed(buffer[..i]) == Wire.Varint(value)
    {
      ghost var before := buffer[..i];
      FillStep(before, n, value);
      buffer[i] := n % 128 + 128;
      assert buffer[..i + 1] == before + [n % 128 + 128];
      n := n / 128;
      i := i + 1;
    }
    CloseLast(buffer, i);
    return buffer[..i];
  }

  /** pb_encode_varint. */
  method EncodeVarint(s: OStream, value: nat) returns (ok: bool)
    requires s.Valid() && value < TWO64
    modifies s.Repr()
    ensures s.Valid() && ok == old(s.Room(|Wire.Varint(value)|))
    ensures ok ==> s.Added(old(s.bytesWritten), old(s.Contents()), Wire.Varint(value))
  {
    if value <= 0x7F {
      ok := s.Write([value]);
    } else {
      var b := FillVarint(value);
      ok := s.Write(b);
    }
  }

  method CloseLast(buffer: array<Byte>, i: nat)
    requires 0 < i <= buffer.Length
    modifies buffer
    ensures buffer[..i] == Closed(old(buffer[..i]))
  {
    buffer[i - 1] := buffer[i - 1] % 128;
  }

  /** pb_encode_tag. */
  method EncodeTag(s: OStream, wireType: nat, tag: nat) returns (ok: bool)
    requires s.Valid() && tag < TWO32 && wireType < 8
    modifies s.Repr()
    ensures s.Valid() && ok == old(s.Room(|Tag(tag, wireType)|))
    ensures ok ==> s.Added(old(s.bytesWritten), old(s.Contents()), Tag(tag, wireType))
  {
    ok := EncodeVarint(s, 8 * tag + wireType);
  }

  /** pb_encode_string. */
  method EncodeString(s: OStream, b: Bytes) returns (ok: bool)
    requires s.Valid() && |b| < TWO64
    modifies s.Repr()
    ensures s.Valid() && ok == old(s.Room(|Delimited(b)|))
    ensures ok ==> s.Added(old(s.bytesWritten), old(s.Contents()), Delimited(b))
  {
    hide Wire.Varint;
    ghost var w, c := s.bytesWritten, s.Contents();
    ok := EncodeVarint(s, |b|);
    if !ok { return; }
    ghost var w', c' := s.bytesWritten, s.Contents();
    ok := s.Write(b);
    if ok { AddedTwice(s, w, c, Wire.Varint(|b|), w', c', b); }
  }

  lemma FourBytes(n: nat)
    ensures LittleEndian(n, 4) == [n % 256, n / 256 % 256, n / 256 / 256 % 256, n / 256 / 256 / 256 % 256]
  {
    var x := n / 256 / 256;
    assert LittleEndian(x, 2) == [x % 256, x / 256 % 256];
    assert LittleEndian(n / 256, 3) == [n / 256 % 256] + LittleEndian(x, 2);
  }

  function ShiftBytes(n: nat, width: nat): nat {
    if width == 0 then n else ShiftBytes(n / 256, width - 1)
  }

  lemma {:induction false} LittleEndianSplit(n: nat, width: nat, more: nat)
    ensures LittleEndian(n, width + more) == LittleEndian(n, width) + LittleEndian(ShiftBytes(n, width), more)
  {
    if width > 0 { LittleEndianSplit(n / 256, width - 1, more); }
  }

  lemma EightBytes(n: nat)
    ensures LittleEndian(n, 8) == LittleEndian(n, 4) + LittleEndian(n / 256 / 256 / 256 / 256, 4)
  {
    hide LittleEndian;
    LittleEndianSplit(n, 4, 4);
    var x := n / 256 / 256;
    assert ShiftBytes(x / 256, 1) == ShiftBytes(x / 256 / 256, 0);
    assert ShiftBytes(n, 4) == ShiftBytes(n / 256, 3) == ShiftBytes(x, 2) == ShiftBytes(x / 256, 1);
  }

  /** pb_encode_fixed32 and pb_encode_fixed64: the word shifted right a byte at a time. */
  method EncodeFixed(s: OStream, k: Kind, n: nat) returns (ok: bool)
    requires s.Valid() && (k.Fixed32? || k.Fixed64?) && Typed(k, Num(n))
    modifies s.Repr()
    ensures s.Valid() && ok == old(s.Room(|EncValue(k, Num(n))|))
    ensures ok ==> s.Added(old(s.bytesWritten), old(s.Contents()), EncValue(k, Num(n)))
  {
    hide LittleEndian;
    FourBytes(n);
    var low: Bytes := [n % 256, n / 256 % 256, n / 256 / 256 % 256, n / 256 / 256 / 256 % 256];
    if k.Fixed32? {
      ok := s.Write(low);
    } else {
      var h := n / 256 / 256 / 256 / 256;
      EightBytes(n);
      FourBytes(h);
      ok := s.Write(low + [h % 256, h / 256 % 256, h / 256 / 256 % 256, h / 256 / 256 / 256 % 256]);
    }
  }

  /** pb_enc_bool to pb_enc_fixed_length_bytes. */
  method EncodeScalar(s: OStream, k: Kind, v: Value) returns (ok: bool)
    requires s.Valid() && Typed(k, v) && !k.Submessage?
    modifies s.Repr()
    ensures s.Valid() && ok == (Encodable(k, v) && old(s.Room(|EncValue(k, v)|)))
    ensures ok ==> s.Added(old(s.bytesWritten), old(s.Contents()), EncValue(k, v))
  {
    hide Wire.Varint, LittleEndian;
    if k.Fixed32? || k.Fixed64? {
      ok := EncodeFixed(s, k, v.n);
    } else if k.Bool? {
      ok := EncodeVarint(s, if v.n != 0 then 1 else 0);
    } else if k.Varint? || k.UVarint? || k.SVarint? {
      if !ValidSize(k.size) { return false; }
      ok := EncodeVarint(s, if k.Varint? then Unsigned64(v.n) else if k.UVarint? then v.n else Zigzag(v.n));
    } else {
      if k.Blob? && |v.b| > k.cap { return false; }
      ok := EncodeString(s, v.b);
    }
  }

  // -------------------------------------------------------------- submessages

  lemma PackedSplit(k: Kind, s: seq<Value>, t: nat)
    requires t < |s|
    ensures EncPacked(k, s, t) == EncValue(k, s[t]) + EncPacked(k, s, t + 1)
  {
  }

  lemma {:induction false} FixedPackedLength(k: Kind, s: seq<Value>, t: nat)
    requires (k.Fixed32? || k.Fixed64?) && t <= |s| && forall x :: 0 <= x < |s| ==> Typed(k, s[x])
    ensures |EncPacked(k, s, t)| == (if k.Fixed32? then 4 else 8) * (|s| - t)
    decreases |s| - t
  {
    if t < |s| { FixedPackedLength(k, s, t + 1); }
  }

  /** The loop over the entries of a packed array, on a stream that counts or writes. */
  method EncodeItems(s: OStream, k: Kind, items: seq<Value>) returns (ok: bool)
    requires s.Valid() && Packable(k) && forall t :: 0 <= t < |items| ==> Typed(k, items[t])
    modifies s.Repr()
    ensures s.Valid()
    ensures ok == ((forall t :: 0 <= t < |items| ==> Encodable(k, items[t])) && old(s.Room(|EncPacked(k, items, 0)|)))
    ensures ok ==> s.Added(old(s.bytesWritten), old(s.Contents()), EncPacked(k, items, 0))
  {
    hide Typed, EncValue, EncPacked, Encodable;
    ghost var w, c, done: Bytes := s.bytesWritten, s.Contents(), [];
    Regroup(c, [], []);
    Regroup(EncPacked(k, items, 0), [], []);
    for i := 0 to |items|
      invariant s.Added(w, c, done)
      invariant done + EncPacked(k, items, i) == EncPacked(k, items, 0)
      invariant forall t :: 0 <= t < i ==> Encodable(k, items[t])
    {
      PackedSplit(k, items, i);
      ghost var e, w', c' := EncValue(k, items[i]), s.bytesWritten, s.Contents();
      ok := EncodeScalar(s, k, items[i]);
      if !ok { return; }
      AddedTwice(s, w, c, done, w', c', e);
      Regroup(done, e, EncPacked(k, items, i + 1));
      done := done + e;
    }
    PackedEnd(k, items);
    Regroup(done, [], []);
    ok := true;
  }

  lemma PackedEnd(k: Kind, s: seq<Value>)
    ensures EncPacked(k, s, |s|) == []
  {
  }

  /** The total size of a packed array: by arithmetic for fixed words, else by a counting pass. */
  method PackedSize(k: Kind, items: seq<Value>) returns (ok: bool, size: nat)
    requires Packable(k) && forall t :: 0 <= t < |items| ==> Typed(k, items[t])
    ensures ok == forall t :: 0 <= t < |items| ==> Encodable(k, items[t])
    ensures ok ==> size == |EncPacked(k, items, 0)|
  {
    hide Typed, EncValue, EncPacked;
    if k.Fixed32? || k.Fixed64? {
      FixedPackedLength(k, items, 0);
      return true, (if k.Fixed32? then 4 else 8) * |items|;
    }
    var sizing := new OStream(null, 0);
    ok := EncodeItems(sizing, k, items);
    size := sizing.bytesWritten;
  }

  /** encode_array for a packable kind. */
  method EncodePackedArray(s: OStream, f: Field, items: seq<Value>) returns (ok: bool)
    requires s.Valid() && f.tag < TWO32 && Packable(f.kind) && forall t :: 0 <= t < |items| ==> Typed(f.kind, items[t])
    requires |EncPacked(f.kind, items, 0)| < TWO64
    modifies s.Repr()
    ensures s.Valid()
    ensures ok == ((forall t :: 0 <= t < |items| ==> Encodable(f.kind, items[t]))
                   && old(s.Room(|Tag(f.tag, 2) + Delimited(EncPacked(f.kind, items, 0))|)))
    ensures ok ==> s.Added(old(s.bytesWritten), old(s.Contents()), Tag(f.tag, 2) + Delimited(EncPacked(f.kind, items, 0)))
  {
    hide Typed, EncValue, EncPacked, Wire.Varint, Tag, Encodable, Packable;
    ghost var w, c, e := s.bytesWritten, s.Contents(), EncPacked(f.kind, items, 0);
    ok := EncodeTag(s, 2, f.tag);
    if !ok { return; }
    var size: nat;
    ok, size := PackedSize(f.kind, items);
    if !ok { return; }
    ghost var w1, c1 := s.bytesWritten, s.Contents();
    ok := EncodeVarint(s, size);
    if !ok { return; }
    AddedTwice(s, w, c, Tag(f.tag, 2), w1, c1, Wire.Varint(|e|));
    ghost var w2, c2, head := s.bytesWritten, s.Contents(), Tag(f.tag, 2) + Wire.Varint(|e|);
    assert head + e == Tag(f.tag, 2) + Delimited(e);
    if s.sink == null {
      s.Count(size);
    } else {
      ok := EncodeItems(s, f.kind, items);
      if !ok { return; }
      AddedTwice(s, w, c, head, w2, c2, e);
    }
  }

  /** Field encoders by kind. */
  method EncodeValue(s: OStream, k: Kind, v: Value) returns (ok: bool)
    requires s.Valid() && Typed(k, v) && |EncValue(k, v)| < TWO64 && WellFormedKind(k)
    modifies s.Repr()
    ensures s.Valid() && ok == (Encodable(k, v) && old(s.Room(|EncValue(k, v)|)))
    ensures ok ==> s.Added(old(s.bytesWritten), old(s.Contents()), EncValue(k, v))
    decreases k, 0
  {
    hide EncFrom, Wire.Varint;
    if k.Submessage? {
      ok := EncodeSubmessage(s, k.fields, v.slots);
    } else {
      ok := EncodeScalar(s, k, v);
    }
  }

  /** pb_encode_submessage: count, write the length, then write. */
  method EncodeSubmessage(s: OStream, fs: seq<Field>, m: Slots) returns (ok: bool)
    requires s.Valid() && WellFormed(fs) && TypedSlots(fs, m) && |EncMessage(fs, m)| < TWO64
    modifies s.Repr()
    ensures s.Valid() && ok == (EncodableSlots(fs, m) && old(s.Room(|Delimited(EncMessage(fs, m))|)))
    ensures ok ==> s.Added(old(s.bytesWritten), old(s.Contents()), Delimited(EncMessage(fs, m)))
    decreases fs, 1
  {
    hide EncFrom, Wire.Varint, TypedSlots, EncodableSlots, WellFormed;
    ghost var w, c, e := s.bytesWritten, s.Contents(), EncMessage(fs, m);
    var sub := new OStream(null, 0);
    ok := Encode(sub, fs, m);
    if !ok { return; }
    var size := sub.bytesWritten;
    ok := EncodeVarint(s, size);
    if !ok { return; }
    ghost var w', c' := s.bytesWritten, s.Contents();
    if s.sink == null {
      s.Count(size);
      return true;
    }
    if s.bytesWritten + size > s.maxSize { return false; }
    sub := new OStream(s.sink, size);
    ok := Encode(sub, fs, m);
    s.bytesWritten := s.bytesWritten + sub.bytesWritten;
    if sub.bytesWritten != size { return false; }
    assert s.sink.Contents() == c' + e;
    AddedTwice(s, w, c, Wire.Varint(|e|), w', c', e);
  }

  function Record(f: Field, v: Value): Bytes { Tag(f.tag, WireType(f.kind)) + EncValue(f.kind, v) }

  lemma RecordsSplit(f: Field, s: seq<Value>, t: nat)
    requires t < |s|
    ensures EncRecords(f, s, t) == Record(f, s[t]) + EncRecords(f, s, t + 1)
  {
  }

  /** The records of a field: a single value, or the entries of an unpacked array. */
  method EncodeRecords(s: OStream, f: Field, items: seq<Value>) returns (ok: bool)
    requires s.Valid() && WellFormedField(f) && (forall t :: 0 <= t < |items| ==> Typed(f.kind, items[t]))
    requires |EncRecords(f, items, 0)| < TWO64
    modifies s.Repr()
    ensures s.Valid()
    ensures ok == ((forall t :: 0 <= t < |items| ==> Encodable(f.kind, items[t])) && old(s.Room(|EncRecords(f, items, 0)|)))
    ensures ok ==> s.Added(old(s.bytesWritten), old(s.Contents()), EncRecords(f, items, 0))
    decreases f, 0
  {
    hide Typed, EncValue, EncRecords, Encodable, Record, WellFormed, WellFormedField;
    ghost var w, c, done: Bytes := s.bytesWritten, s.Contents(), [];
    Regroup(c, [], []);
    Regroup(EncRecords(f, items, 0), [], []);
    assert s.Added(w, c, done);
    hide OStream.Added, OStream.Contents, OStream.Valid;
    for i := 0 to |items|
      invariant s.Added(w, c, done) && s.bytesWritten == w + |done| && s.Valid()
      invariant done + EncRecords(f, items, i) == EncRecords(f, items, 0)
      invariant forall t :: 0 <= t < i ==> Encodable(f.kind, items[t])
    {
      RecordsSplit(f, items, i);
      ok := EncodeRecord(s, f, items[i], w, c, done);
      if !ok { return; }
      Regroup(done, Record(f, items[i]), EncRecords(f, items, i + 1));
      done := done + Record(f, items[i]);
    }
    RecordsEnd(f, items);
    Regroup(done, [], []);
    ok := true;
  }

  lemma RecordsEnd(f: Field, s: seq<Value>)
    ensures EncRecords(f, s, |s|) == []
  {
  }

  /** A tag and its value. */
  method EncodeRecord(s: OStream, f: Field, v: Value, ghost w: nat, ghost c: Bytes, ghost done: Bytes) returns (ok: bool)
    requires WellFormedField(f) && Typed(f.kind, v) && |Record(f, v)| < TWO64 && s.Added(w, c, done)
    modifies s.Repr()
    ensures s.Valid() && ok == (Encodable(f.kind, v) && old(s.Room(|Record(f, v)|)))
    ensures ok ==> s.Added(w, c, done + Record(f, v)) && s.bytesWritten == w + |done| + |Record(f, v)|
    decreases f, 0, 0
  {
    hide Typed, EncValue, Encodable, Tag, WellFormed;
    ghost var t, e := Tag(f.tag, WireType(f.kind)), EncValue(f.kind, v);
    ghost var w1, c1 := s.bytesWritten, s.Contents();
    ok := EncodeTag(s, WireType(f.kind), f.tag);
    if !ok { return; }
    AddedTwice(s, w, c, done, w1, c1, t);
    ghost var w2, c2 := s.bytesWritten, s.Contents();
    ok := EncodeValue(s, f.kind, v);
    if ok {
      AddedTwice(s, w, c, done + t, w2, c2, e);
      Regroup(done, t, e);
    }
  }

  /** encode_basic_field. */
  method EncodeField(s: OStream, f: Field, items: seq<Value>) returns (ok: bool)
    requires s.Valid() && WellFormedField(f) && TypedSlot(f, items) && |EncField(f, items)| < TWO64
    modifies s.Repr()
    ensures s.Valid() && ok == (EncodableSlot(f, items) && old(s.Room(|EncField(f, items)|)))
    ensures ok ==> s.Added(old(s.bytesWritten), old(s.Contents()), EncField(f, items))
    decreases f, 1
  {
    hide Typed, EncRecords, EncPacked, Encodable, Tag, WellFormed, IsZero;
    if f.rule.Singular? && IsZero(f.kind, items[0]) {
      assert s.Contents() + [] == s.Contents();
      return true;
    }
    if f.rule.Repeated? {
      if |items| == 0 {
        RecordsEnd(f, items);
        assert s.Contents() + [] == s.Contents();
        return true;
      }
      if |items| > f.rule.max { return false; }
      if Packable(f.kind) {
        ok := EncodePackedArray(s, f, items);
        return;
      }
    }
    ok := EncodeRecords(s, f, items);
  }

  method EncodeNext(s: OStream, f: Field, items: seq<Value>, ghost w: nat, ghost c: Bytes, ghost done: Bytes) returns (ok: bool)
    requires s.Added(w, c, done) && WellFormedField(f) && TypedSlot(f, items) && |EncField(f, items)| < TWO64
    modifies s.Repr()
    ensures s.Valid() && ok == (EncodableSlot(f, items) && old(s.Room(|EncField(f, items)|)))
    ensures ok ==> s.Added(w, c, done + EncField(f, items)) && s.bytesWritten == w + |done| + |EncField(f, items)|
    decreases f, 2
  {
    hide TypedSlot, EncField, EncodableSlot, WellFormedField;
    ghost var w', c' := s.bytesWritten, s.Contents();
    ok := EncodeField(s, f, items);
    if ok { AddedTwice(s, w, c, done, w', c', EncField(f, items)); }
  }

  /** pb_encode. */
  method Encode(s: OStream, fs: seq<Field>, m: Slots) returns (ok: bool)
    requires s.Valid() && WellFormed(fs) && TypedSlots(fs, m) && |EncMessage(fs, m)| < TWO64
    modifies s.Repr()
    ensures s.Valid() && ok == (EncodableSlots(fs, m) && old(s.Room(|EncMessage(fs, m)|)))
    ensures ok ==> s.Added(old(s.bytesWritten), old(s.Contents()), EncMessage(fs, m))
    decreases fs, 0
  {
    assert |m| == |fs|;
    hide TypedSlot, EncFrom, EncField, EncodableSlot, WellFormedField, Exclusive;
    ghost var w, c, done: Bytes := s.bytesWritten, s.Contents(), [];
    Regroup(c, [], []);
    Regroup(EncFrom(fs, m, 0), [], []);
    assert s.Added(w, c, done);
    hide OStream.Added, OStream.Contents, OStream.Valid;
    for i := 0 to |fs|
      invariant s.Added(w, c, done) && s.bytesWritten == w + |done| && s.Valid()
      invariant done + EncFrom(fs, m, i) == EncFrom(fs, m, 0)
      invariant forall t :: 0 <= t < i ==> EncodableSlot(fs[t], m[t])
    {
      FromSplit(fs, m, i);
      ok := EncodeNext(s, fs[i], m[i], w, c, done);
      if !ok { return; }
      Regroup(done, EncField(fs[i], m[i]), EncFrom(fs, m, i + 1));
      done := done + EncField(fs[i], m[i]);
    }
    FromEnd(fs, m);
    Regroup(done, [], []);
    ok := true;
  }

  lemma FromSplit(fs: seq<Field>, m: Slots, i: nat)
    requires i < |fs| == |m|
    ensures EncFrom(fs, m, i) == EncField(fs[i], m[i]) + EncFrom(fs, m, i + 1)
  {
  }

  lemma FromEnd(fs: seq<Field>, m: Slots)
    ensures EncFrom(fs, m, |fs|) == []
  {
  }

  /** pb_get_encoded_size is the length of what pb_encode writes. */
  method GetEncodedSize(fs: seq<Field>, m: Slots) returns (ok: bool, size: nat)
    requires WellFormed(fs) && TypedSlots(fs, m) && |EncMessage(fs, m)| < TWO64
    ensures ok == EncodableSlots(fs, m)
    ensures ok ==> size == |EncMessage(fs, m)|
  {
    hide EncFrom, TypedSlots, EncodableSlots, WellFormed;
    var s := new OStream(null, 0);
    ok := Encode(s, fs, m);
    size := s.bytesWritten;
  }
}
