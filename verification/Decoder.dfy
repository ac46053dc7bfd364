/**
 pb_decode.c: input streams limited to a number of bytes, substreams for
 length-delimited payloads, and the decoder over them.
 */
module Decoder {
  import opened Bytes
  import opened Wire
  import opened Schema
  import opened Decoded
  import FieldIter

  class IStream {
    const data: Bytes
    var pos: nat
    var bytesLeft: nat

    ghost predicate Valid()
      reads this
    {
      pos + bytesLeft <= |data|
    }

    ghost function Rest(): Bytes
      requires Valid()
      reads this
    {
      data[pos..pos + bytesLeft]
    }

    ghost function End(): nat
      reads this
    {
      pos + bytesLeft
    }

    /** pb_istream_from_buffer; a substream starts further in. */
    constructor (data: Bytes, pos: nat, bytesLeft: nat)
      requires pos + bytesLeft <= |data|
      ensures Valid() && this.data == data && this.pos == pos && this.bytesLeft == bytesLeft
    {
      this.data, this.pos, this.bytesLeft := data, pos, bytesLeft;
    }

    /** pb_readbyte. */
    method ReadByte() returns (ok: bool, b: Byte)
      requires Valid()
      modifies this
      ensures Valid() && ok == (old(Rest()) != [])
      ensures ok ==> b == old(Rest())[0] && Rest() == old(Rest())[1..]
      ensures End() == old(End())
    {
      if bytesLeft == 0 { return false, 0; }
      b := data[pos];
      pos, bytesLeft := pos + 1, bytesLeft - 1;
      ok := true;
    }

    /** pb_read; the bytes go to the caller's buffer or, for NULL, nowhere. */
    method Read(count: nat) returns (ok: bool, b: Bytes)
      requires Valid()
      modifies this
      ensures Valid() && ok == (|old(Rest())| >= count)
      ensures ok ==> b == old(Rest())[..count] && Rest() == old(Rest())[count..]
      ensures End() == old(End())
    {
      if bytesLeft < count { return false, []; }
      b := data[pos..pos + count];
      pos, bytesLeft := pos + count, bytesLeft - count;
      ok := true;
    }
  }

  /** The stream stands after what a decoding function read. */
  ghost predicate At<T>(s: IStream, r: Option<Read<T>>)
    reads s
  {
    s.Valid() && r.Some? && s.Rest() == r.value.rest
  }

  /** pb_decode_varint. */
  method DecodeVarint(s: IStream) returns (ok: bool, value: nat)
    requires s.Valid()
    modifies s
    ensures s.Valid() && ok == Decode64(old(s.Rest()), 0, 0).Some?
    ensures ok ==> At(s, Decode64(old(s.Rest()), 0, 0)) && value == Decode64(old(s.Rest()), 0, 0).value.value
    ensures s.End() == old(s.End())
  {
    hide Or, Pow2;
    var k: nat, more := 0, true;
    value := 0;
    ghost var r := Decode64(s.Rest(), 0, 0);
    while more
      invariant s.Valid() && s.End() == old(s.End())
      invariant more ==> Decode64(s.Rest(), k, value) == r
      invariant !more ==> r == Some(Wire.Read(value, s.Rest()))
      decreases more, s.bytesLeft
    {
      if k >= 10 { return false, value; }
      var b: Byte;
      ok, b := s.ReadByte();
      if !ok { return; }
      value := Or(value, b % 128 * Pow2(7 * k) % TWO64);
      k := k + 1;
      more := b >= 128;
    }
    ok := true;
  }

  /** pb_decode_varint32_eof. */
  method DecodeVarint32(s: IStream) returns (ok: bool, value: nat)
    requires s.Valid()
    modifies s
    ensures s.Valid() && ok == Decode32(old(s.Rest())).Some?
    ensures ok ==> At(s, Decode32(old(s.Rest()))) && value == Decode32(old(s.Rest())).value.value
    ensures s.End() == old(s.End())
  {
    hide Or, Pow2;
    var b: Byte;
    value := 0;
    ghost var r := Decode32(s.Rest());
    ok, b := s.ReadByte();
    if !ok { return; }
    value := b % 128;
    var bitpos: nat, more := 7, b >= 128;
    if !more { return; }
    while more
      invariant s.Valid() && s.End() == old(s.End())
      invariant more ==> Decode32From(s.Rest(), bitpos, value) == r
      invariant !more ==> r == if bitpos == 35 && b / 16 % 8 != 0 then None else Some(Wire.Read(value, s.Rest()))
      decreases more, s.bytesLeft
    {
      ok, b := s.ReadByte();
      if !ok { return; }
      if bitpos >= 32 {
        var signExtension := if bitpos < 63 then 0xFF else 0x01;
        if b % 128 != 0 && (value < TWO31 || b != signExtension) { return false, value; }
      } else {
        value := Or(value, b % 128 * Pow2(bitpos) % TWO32);
      }
      bitpos := (bitpos + 7) % 256;
      more := b >= 128;
    }
    ok := !(bitpos == 35 && b / 16 % 8 != 0);
  }

  /** pb_skip_varint. */
  method SkipVarintAt(s: IStream) returns (ok: bool)
    requires s.Valid()
    modifies s
    ensures s.Valid() && ok == SkipVarint(old(s.Rest())).Some? && s.End() == old(s.End())
    ensures ok ==> s.Rest() == SkipVarint(old(s.Rest())).value
  {
    ghost var r := SkipVarint(s.Rest());
    var more := true;
    while more
      invariant s.Valid() && s.End() == old(s.End())
      invariant r == if more then SkipVarint(s.Rest()) else Some(s.Rest())
      decreases more, s.bytesLeft
    {
      var b: Byte;
      ok, b := s.ReadByte();
      if !ok { return; }
      more := b >= 128;
    }
    ok := true;
  }

  /** pb_skip_field. */
  method SkipField(s: IStream, wireType: nat) returns (ok: bool)
    requires s.Valid()
    modifies s
    ensures s.Valid() && ok == Skip(wireType, old(s.Rest())).Some? && s.End() == old(s.End())
    ensures ok ==> s.Rest() == Skip(wireType, old(s.Rest())).value
  {
    hide SkipVarint, Decode32;
    if wireType == 0 {
      ok := SkipVarintAt(s);
    } else if wireType == 1 || wireType == 5 {
      var skipped;
      ok, skipped := s.Read(if wireType == 1 then 8 else 4);
    } else if wireType == 2 {
      var size: nat;
      ok, size := DecodeVarint32(s);
      if ok {
        var skipped;
        ok, skipped := s.Read(size);
      }
    } else {
      ok := false;
    }
  }

  /**
   pb_make_string_substream. The parent gives up the payload's bytes at once,
   but its position moves only when the substream is closed.
   */
  method MakeSubstream(s: IStream) returns (ok: bool, sub: IStream)
    requires s.Valid()
    modifies s
    ensures s.Valid() && ok == TakeDelimited(old(s.Rest())).Some? && s.End() <= old(s.End())
    ensures ok ==> fresh(sub) && sub.Valid() && sub.data == s.data && sub.Rest() == TakeDelimited(old(s.Rest())).value.value
    ensures ok ==> sub.End() + s.bytesLeft == old(s.End())
    ensures ok ==> s.data[sub.End()..old(s.End())] == TakeDelimited(old(s.Rest())).value.rest
    ensures !ok ==> sub == s
  {
    hide Decode32;
    sub := s;
    var size: nat;
    ok, size := DecodeVarint32(s);
    if !ok { return; }
    if s.bytesLeft < size { return false, sub; }
    sub := new IStream(s.data, s.pos, size);
    s.bytesLeft := s.bytesLeft - size;
  }

  /** pb_close_string_substream: skip what is left and move the parent past it. */
  method CloseSubstream(s: IStream, sub: IStream)
    requires s != sub && s.Valid() && sub.Valid() && s.data == sub.data && sub.End() + s.bytesLeft <= |s.data|
    modifies s, sub
    ensures s.Valid() && s.bytesLeft == old(s.bytesLeft) && s.pos == old(sub.End())
  {
    if sub.bytesLeft > 0 {
      var _, _ := sub.Read(sub.bytesLeft);
    }
    s.pos := sub.pos;
  }

  /** pb_dec_bytes, pb_dec_string, pb_dec_fixed_length_bytes: the length is checked before anything is read. */
  method DecodeBytes(s: IStream, k: Kind) returns (ok: bool, v: Value)
    requires s.Valid() && (k.Blob? || k.Text? || k.FixedBlob?)
    modifies s
    ensures s.Valid() && ok == DecScalar(k, old(s.Rest())).Some? && s.End() == old(s.End())
    ensures ok ==> At(s, DecScalar(k, old(s.Rest()))) && v == DecScalar(k, old(s.Rest())).value.value
  {
    hide Decode32;
    v := Num(0);
    var size: nat, b: Bytes;
    ok, size := DecodeVarint32(s);
    if !ok { return; }
    if k.FixedBlob? && size == 0 {
      v := Str(Zeros(k.len));
      return;
    }
    if (k.Blob? && size > k.cap) || (k.Text? && size + 1 > k.cap) || (k.FixedBlob? && size != k.len) { return false, v; }
    ok, b := s.Read(size);
    if !ok { return; }
    v := Str(if k.Text? then CString(b) else b);
  }

  /** pb_dec_bool to pb_dec_fixed64. */
  method DecodeScalar(s: IStream, k: Kind) returns (ok: bool, v: Value)
    requires s.Valid() && !k.Submessage?
    modifies s
    ensures s.Valid() && ok == DecScalar(k, old(s.Rest())).Some? && s.End() == old(s.End())
    ensures ok ==> At(s, DecScalar(k, old(s.Rest()))) && v == DecScalar(k, old(s.Rest())).value.value
  {
    hide Decode32, Decode64, FromLittleEndian, TakeDelimited, CastBytes;
    v := Num(0);
    if k.Bool? {
      var n: nat;
      ok, n := DecodeVarint32(s);
      v := Num(if n != 0 then 1 else 0);
    } else if k.Fixed32? || k.Fixed64? {
      var b: Bytes;
      ok, b := s.Read(if k.Fixed32? then 4 else 8);
      v := Num(FromLittleEndian(b));
    } else if k.Varint? || k.UVarint? || k.SVarint? {
      var n: nat;
      ok, n := DecodeVarint(s);
      if !ok { return; }
      var cast := CastNumber(k, n);
      ok := cast.Some?;
      if ok { v := cast.value; }
    } else {
      ok, v := DecodeBytes(s, k);
    }
  }

  // -------------------------------------------------------------- submessages

  /** Field decoders by kind; pb_dec_submessage decodes into `prev`. */
  method DecodeValue(s: IStream, k: Kind, prev: Value) returns (ok: bool, v: Value)
    requires s.Valid() && WellFormedKind(k) && Sound(k, prev)
    modifies s
    ensures s.Valid() && ok == DecValue(k, prev, old(s.Rest())).Some? && s.End() <= old(s.End())
    ensures ok ==> At(s, DecValue(k, prev, old(s.Rest()))) && s.End() == old(s.End())
    ensures ok ==> v == DecValue(k, prev, old(s.Rest())).value.value
    decreases s.bytesLeft, 1
  {
    hide DecScalar, TakeDelimited, DecMessage, WellFormed, SoundSlots;
    if !k.Submessage? {
      ok, v := DecodeScalar(s, k);
      return;
    }
    v := prev;
    var sub: IStream;
    ghost var input := s.Rest();
    ok, sub := MakeSubstream(s);
    if !ok { return; }
    assert sub.bytesLeft == |TakeDelimited(input).value.value| < |input|;
    FromMsg(k, prev.slots);
    var m: Slots;
    ok, m := DecodeMessage(sub, k.fields, prev.slots);
    v := Msg(m);
    CloseSubstream(s, sub);
  }

  /** The loop over a packed array's payload. */
  method DecodePackedItems(s: IStream, k: Kind, max: nat, slot: seq<Value>) returns (ok: bool, items: seq<Value>)
    requires s.Valid() && WellFormedKind(k)
    modifies s
    ensures s.Valid() && ok == DecPacked(k, max, slot, old(s.Rest())).Some? && s.End() <= old(s.End())
    ensures ok ==> items == DecPacked(k, max, slot, old(s.Rest())).value && s.End() == old(s.End())
    decreases s.bytesLeft, 2
  {
    hide DecValue, Default, WellFormedKind, Sound;
    DefaultSound(k);
    items := slot;
    ghost var r := DecPacked(k, max, slot, s.Rest());
    while s.bytesLeft > 0 && |items| < max
      invariant s.Valid() && s.End() == old(s.End()) && s.bytesLeft <= old(s.bytesLeft)
      invariant DecPacked(k, max, items, s.Rest()) == r
      decreases s.bytesLeft
    {
      var v: Value;
      ok, v := DecodeValue(s, k, Default(k));
      if !ok { return; }
      items := items + [v];
    }
    ok := s.bytesLeft == 0;
  }

  /** decode_static_field. */
  method DecodeField(s: IStream, f: Field, slot: seq<Value>, wireType: nat) returns (ok: bool, r: seq<Value>)
    requires s.Valid() && WellFormedKind(f.kind) && SoundSlot(f, slot)
    modifies s
    ensures s.Valid() && ok == DecSlot(f, slot, wireType, old(s.Rest())).Some? && s.End() <= old(s.End())
    ensures ok ==> At(s, DecSlot(f, slot, wireType, old(s.Rest()))) && s.End() == old(s.End())
    ensures ok ==> r == DecSlot(f, slot, wireType, old(s.Rest())).value.value
    decreases s.bytesLeft, 2
  {
    hide DecValue, DecPacked, Default, WellFormedKind, Sound, TakeDelimited;
    r := slot;
    if f.rule.Repeated? && wireType == 2 && Packable(f.kind) {
      var sub: IStream;
      ghost var input := s.Rest();
      ok, sub := MakeSubstream(s);
      if !ok { return; }
      assert sub.bytesLeft == |TakeDelimited(input).value.value| < |input|;
      ok, r := DecodePackedItems(sub, f.kind, f.rule.max, slot);
      if !ok { return; }
      CloseSubstream(s, sub);
      return;
    }
    if f.rule.Repeated? && |slot| >= f.rule.max { return false, r; }
    DefaultSound(f.kind);
    var v: Value;
    ok, v := DecodeValue(s, f.kind, if f.rule.Repeated? || slot == [] then Default(f.kind) else slot[0]);
    r := if f.rule.Repeated? then slot + [v] else [v];
  }

  /** pb_decode_noinit. */
  method DecodeMessage(s: IStream, fs: seq<Field>, dest: Slots) returns (ok: bool, m: Slots)
    requires s.Valid() && WellFormed(fs) && SoundSlots(fs, dest)
    modifies s
    ensures s.Valid() && ok == DecMessage(fs, dest, old(s.Rest())).Some? && s.End() <= old(s.End())
    ensures ok ==> At(s, DecMessage(fs, dest, old(s.Rest()))) && s.End() == old(s.End())
    ensures ok ==> m == DecMessage(fs, dest, old(s.Rest())).value.value
    decreases s.bytesLeft, 0
  {
    hide Decode32, DecSlot, Skip, Schema.Find, Store, Mark, WellFormedKind, SoundSlot, Exclusive, FieldIter.AddressOf;
    m := dest;
    var seen: set<nat>, open := {}, true;
    var iter := new FieldIter.Iter(fs, 1);
    ghost var r := DecFrom(fs, dest, {}, s.Rest());
    while open && s.bytesLeft > 0
      invariant s.Valid() && s.End() == old(s.End()) && s.bytesLeft <= old(s.bytesLeft)
      invariant iter.Valid() && fresh(iter) && iter.fields == fs && SoundSlots(fs, m)
      invariant r == if open then DecFrom(fs, m, seen, s.Rest()) else Some(Schema.Decoded(m, seen, s.Rest()))
      decreases open, s.bytesLeft
    {
      var t: nat;
      ok, t := DecodeVarint32(s);
      if !ok { return; }
      if t == 0 {
        open := false;
      } else {
        var known := iter.Find(t / 8);
        if !known {
          ok := SkipField(s, t % 8);
          if !ok { return; }
        } else if fs == [] {
          var ignored: nat;
          ok, ignored := DecodeVarint32(s);
          if !ok { return; }
        } else {
          var i, slot := iter.pos, m[iter.pos];
          assert WellFormedField(fs[i]) && SoundSlot(fs[i], slot);
          ghost var input := s.Rest();
          ok, slot := DecodeField(s, fs[i], slot, t % 8);
          if !ok { return; }
          SlotSound(fs[i], m[i], t % 8, input);
          StoreSound(fs, m, i, slot);
          seen := Mark(fs, i, seen);
          m := Store(fs, m, i, slot);
        }
      }
    }
    ok := RequiredPresent(fs, seen);
  }

  /** The check that every tracked required field was seen. */
  method RequiredPresent(fs: seq<Field>, seen: set<nat>) returns (ok: bool)
    ensures ok == AllSeen(fs, seen)
  {
    var count := RequiredIndex(fs, |fs|);
    if count > MAX_REQUIRED { count := MAX_REQUIRED; }
    for i := 0 to count
      invariant forall r: nat :: r < i ==> r in seen
    {
      if i !in seen { return false; }
    }
    ok := true;
  }

  /** pb_decode. */
  method DecodeInit(s: IStream, fs: seq<Field>) returns (ok: bool, m: Slots)
    requires s.Valid() && WellFormed(fs)
    modifies s
    ensures s.Valid() && ok == Decode(fs, old(s.Rest())).Some?
    ensures ok ==> At(s, Decode(fs, old(s.Rest()))) && m == Decode(fs, old(s.Rest())).value.value
  {
    hide DecMessage, SoundSlots, WellFormed, Defaults;
    DefaultsSound(fs);
    ok, m := DecodeMessage(s, fs, Defaults(fs));
  }
}
