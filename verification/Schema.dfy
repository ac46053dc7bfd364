/**
 nanopb's field descriptors and the messages they describe, with the wire
 format as two functions: what pb_encode writes for a message, and what
 pb_decode makes of a byte string.
 */
module Schema {
  import opened Bytes
  import opened Wire

  // ------------------------------------------------------------- descriptors

  datatype Kind =
    | Bool
    | Varint(size: nat)            // int32, int64, enum, in `size` bytes of struct
    | UVarint(size: nat)
    | SVarint(size: nat)
    | Fixed32
    | Fixed64
    | Blob(cap: nat)               // PB_BYTES_ARRAY with room for cap bytes
    | Text(cap: nat)               // char[cap]
    | FixedBlob(len: nat)          // pb_byte_t[len]
    | Submessage(fields: seq<Field>)

  datatype Rule =
    | Required
    | Optional                     // with a has_ flag
    | Singular                     // proto3: present when not zero
    | Repeated(max: nat)           // with a _count
    | Oneof(group: nat)

  /** Where the struct keeps the field: pb_field_t's offsets and sizes, for static allocation. */
  datatype Layout = Layout(dataOffset: nat, sizeOffset: int, dataSize: nat, arraySize: nat)

  datatype Field = Field(tag: nat, rule: Rule, kind: Kind, layout: Layout)

  /** A struct as the slots of its fields: one value, none or one, or an array's entries. */
  datatype Value = Num(n: int) | Str(b: Bytes) | Msg(slots: seq<seq<Value>>)
  type Slots = seq<seq<Value>>

  predicate Packable(k: Kind) {
    k.Bool? || k.Varint? || k.UVarint? || k.SVarint? || k.Fixed32? || k.Fixed64?
  }

  function WireType(k: Kind): nat {
    match k
    case Bool => 0
    case Varint(_) => 0
    case UVarint(_) => 0
    case SVarint(_) => 0
    case Fixed32 => 5
    case Fixed64 => 1
    case _ => 2
  }

  function FindFrom(fs: seq<Field>, tag: nat, i: nat): (r: Option<nat>)
    ensures r.Some? ==> i <= r.value < |fs| && fs[r.value].tag == tag
    ensures r.None? ==> forall j :: i <= j < |fs| ==> fs[j].tag != tag
    decreases |fs| - i
  {
    if i >= |fs| then None else if fs[i].tag == tag then Some(i) else FindFrom(fs, tag, i + 1)
  }

  function Find(fs: seq<Field>, tag: nat): (r: Option<nat>)
    ensures r.Some? ==> r.value < |fs| && fs[r.value].tag == tag
    ensures r.None? ==> forall j :: 0 <= j < |fs| ==> fs[j].tag != tag
  {
    FindFrom(fs, tag, 0)
  }

  /** How many required fields come before index i. */
  function RequiredIndex(fs: seq<Field>, i: nat): nat
    requires i <= |fs|
  {
    if i == 0 then 0 else RequiredIndex(fs, i - 1) + if fs[i - 1].rule.Required? then 1 else 0
  }

  /** What the generator emits: tags that fit a tag varint, each used once; sizes that are C types' sizes. */
  predicate WellFormed(fs: seq<Field>)
    decreases fs
  {
    && (forall i :: 0 <= i < |fs| ==> WellFormedField(fs[i]))
    && (forall i, j :: 0 <= i < j < |fs| ==> fs[i].tag != fs[j].tag)
  }

  predicate WellFormedField(f: Field)
    decreases f
  {
    0 < f.tag < 0x2000_0000 && WellFormedKind(f.kind)
  }

  predicate WellFormedKind(k: Kind)
    decreases k
  {
    match k
    case Varint(size) => ValidSize(size)
    case UVarint(size) => ValidSize(size)
    case SVarint(size) => ValidSize(size)
    case Blob(cap) => cap < TWO32
    case Text(cap) => cap < TWO32
    case FixedBlob(len) => len < TWO32
    case Submessage(fs) => WellFormed(fs)
    case _ => true
  }

  // ------------------------------------------------------------------ structs

  predicate ValidSize(size: nat) { size == 1 || size == 2 || size == 4 || size == 8 }

  predicate SignedFits(n: int, size: nat) {
    match size
    case 1 => -0x80 <= n < 0x80
    case 2 => -0x8000 <= n < 0x8000
    case 4 => -TWO31 <= n < TWO31
    case 8 => -TWO63 <= n < TWO63
    case _ => false
  }

  predicate UnsignedFits(n: int, size: nat) {
    match size
    case 1 => 0 <= n < 0x100
    case 2 => 0 <= n < 0x1_0000
    case 4 => 0 <= n < TWO32
    case 8 => 0 <= n < TWO64
    case _ => false
  }

  /** Values the C type can hold; a field of no known size cannot be read at all. */
  predicate Typed(k: Kind, v: Value)
    decreases k
  {
    match k
    case Bool => v == Num(0) || v == Num(1)
    case Varint(size) => v.Num? && (ValidSize(size) ==> SignedFits(v.n, size))
    case UVarint(size) => v.Num? && (ValidSize(size) ==> UnsignedFits(v.n, size))
    case SVarint(size) => v.Num? && (ValidSize(size) ==> SignedFits(v.n, size))
    case Fixed32 => v.Num? && 0 <= v.n < TWO32
    case Fixed64 => v.Num? && 0 <= v.n < TWO64
    case Blob(_) => v.Str? && |v.b| < TWO32
    case Text(cap) => v.Str? && |v.b| <= cap < TWO32 && 0 !in v.b
    case FixedBlob(len) => v.Str? && |v.b| == len < TWO32
    case Submessage(fs) => v.Msg? && TypedSlots(fs, v.slots)
  }

  predicate TypedSlot(f: Field, s: seq<Value>)
    decreases f
  {
    && (f.rule.Required? || f.rule.Singular? ==> |s| == 1)
    && (f.rule.Optional? || f.rule.Oneof? ==> |s| <= 1)
    && (forall t :: 0 <= t < |s| ==> Typed(f.kind, s[t]))
  }

  /** A union has one tag: at most one member of a group is set. */
  predicate Exclusive(fs: seq<Field>, m: Slots)
    requires |m| == |fs|
  {
    forall i, j :: 0 <= i < j < |fs| && fs[i].rule.Oneof? && fs[i].rule == fs[j].rule ==> m[i] == [] || m[j] == []
  }

  predicate TypedSlots(fs: seq<Field>, m: Slots)
    decreases fs
  {
    |m| == |fs| && Exclusive(fs, m) && (forall i :: 0 <= i < |fs| ==> TypedSlot(fs[i], m[i]))
  }

  /** pb_message_set_to_defaults, for fields without a default of their own. */
  function Default(k: Kind): Value
    decreases k
  {
    match k
    case Blob(_) => Str([])
    case Text(_) => Str([])
    case FixedBlob(len) => Str(Zeros(len))
    case Submessage(fs) => Msg(Defaults(fs))
    case _ => Num(0)
  }

  function DefaultSlot(f: Field): seq<Value>
    decreases f
  {
    if f.rule.Required? || f.rule.Singular? then [Default(f.kind)] else []
  }

  function Defaults(fs: seq<Field>): (m: Slots)
    ensures |m| == |fs|
    decreases fs
  {
    seq(|fs|, i requires 0 <= i < |fs| => DefaultSlot(fs[i]))
  }

  // ----------------------------------------------------------------- encoding

  /** pb_check_proto3_default_value on a singular field. */
  predicate IsZero(k: Kind, v: Value)
    decreases k
  {
    match k
    case Blob(_) => v.Str? && v.b == []
    case Text(_) => v.Str? && v.b == []
    case FixedBlob(len) => len == 0
    case Submessage(fs) => v.Msg? && |v.slots| == |fs| && forall i :: 0 <= i < |fs| ==> IsZeroSlot(fs[i], v.slots[i])
    case _ => v == Num(0)
  }

  predicate IsZeroSlot(f: Field, s: seq<Value>)
    decreases f
  {
    match f.rule
    case Required => false
    case Singular => |s| == 1 && IsZero(f.kind, s[0])
    case _ => s == []
  }

  function Tag(tag: nat, wireType: nat): Bytes { Wire.Varint(8 * tag + wireType) }

  function Delimited(b: Bytes): Bytes { Wire.Varint(|b|) + b }

  /** The payload of one value. */
  function EncValue(k: Kind, v: Value): Bytes
    decreases k, 0
  {
    match (k, v)
    case (Varint(_), Num(n)) => if -TWO63 <= n < TWO63 then Wire.Varint(Unsigned64(n)) else []
    case (SVarint(_), Num(n)) => if -TWO63 <= n < TWO63 then Wire.Varint(Zigzag(n)) else []
    case (Fixed32, Num(n)) => if n >= 0 then LittleEndian(n, 4) else []
    case (Fixed64, Num(n)) => if n >= 0 then LittleEndian(n, 8) else []
    case (_, Num(n)) => if n >= 0 then Wire.Varint(n) else []
    case (Submessage(fs), Msg(m)) => Delimited(EncFrom(fs, m, 0))
    case (_, Str(b)) => Delimited(b)
    case _ => []
  }

  /** A packed array's payload, from entry t on. */
  function EncPacked(k: Kind, s: seq<Value>, t: nat): Bytes
    decreases k, 1, |s| - t
  {
    if t < |s| then EncValue(k, s[t]) + EncPacked(k, s, t + 1) else []
  }

  /** One record for each entry, from entry t on. */
  function EncRecords(f: Field, s: seq<Value>, t: nat): Bytes
    decreases f, 0, |s| - t
  {
    if t < |s| then Tag(f.tag, WireType(f.kind)) + EncValue(f.kind, s[t]) + EncRecords(f, s, t + 1) else []
  }

  function EncField(f: Field, s: seq<Value>): Bytes
    decreases f, 1
  {
    if f.rule.Singular? && |s| == 1 && IsZero(f.kind, s[0]) then []
    else if f.rule.Repeated? && Packable(f.kind) && s != [] then Tag(f.tag, 2) + Delimited(EncPacked(f.kind, s, 0))
    else EncRecords(f, s, 0)
  }

  /** Fields from index i on. */
  function EncFrom(fs: seq<Field>, m: Slots, i: nat): Bytes
    decreases fs, |fs| - i
  {
    if i < |fs| && i < |m| then EncField(fs[i], m[i]) + EncFrom(fs, m, i + 1) else []
  }

  function EncMessage(fs: seq<Field>, m: Slots): Bytes { EncFrom(fs, m, 0) }

  /** No encoder reports an error: arrays and byte fields within their room, sizes known. */
  predicate Encodable(k: Kind, v: Value)
    decreases k
  {
    match k
    case Varint(size) => ValidSize(size)
    case UVarint(size) => ValidSize(size)
    case SVarint(size) => ValidSize(size)
    case Blob(cap) => v.Str? && |v.b| <= cap
    case Submessage(fs) => v.Msg? && EncodableSlots(fs, v.slots)
    case _ => true
  }

  predicate EncodableSlot(f: Field, s: seq<Value>)
    decreases f
  {
    || (f.rule.Singular? && |s| == 1 && IsZero(f.kind, s[0]))
    || ((f.rule.Repeated? ==> |s| <= f.rule.max) && forall t :: 0 <= t < |s| ==> Encodable(f.kind, s[t]))
  }

  predicate EncodableSlots(fs: seq<Field>, m: Slots)
    decreases fs
  {
    |m| == |fs| && forall i :: 0 <= i < |fs| ==> EncodableSlot(fs[i], m[i])
  }

  // ----------------------------------------------------------------- decoding

  /** pb_skip_varint. */
  function SkipVarint(input: Bytes): (r: Option<Bytes>)
    ensures r.Some? ==> |r.value| < |input|
  {
    if input == [] then None else if input[0] >= 128 then SkipVarint(input[1..]) else Some(input[1..])
  }

  function Drop(input: Bytes, n: nat): Option<Bytes> {
    if |input| < n then None else Some(input[n..])
  }

  /** A length prefix and that many bytes: pb_make_string_substream. */
  function TakeDelimited(input: Bytes): (r: Option<Read<Bytes>>)
    ensures r.Some? ==> |r.value.value| < |input| && |r.value.rest| < |input|
  {
    var size := Decode32(input);
    if size.None? || |size.value.rest| < size.value.value then None
    else Some(Read(size.value.rest[..size.value.value], size.value.rest[size.value.value..]))
  }

  /** pb_skip_field. */
  function Skip(wireType: nat, input: Bytes): (r: Option<Bytes>)
    ensures r.Some? ==> |r.value| < |input|
  {
    match wireType
    case 0 => SkipVarint(input)
    case 1 => Drop(input, 8)
    case 2 => (var r := TakeDelimited(input); if r.None? then None else Some(r.value.rest))
    case 5 => Drop(input, 4)
    case _ => None
  }

  /**
   The checked casts of pb_dec_varint, pb_dec_uvarint and pb_dec_svarint. An
   int field of at most four bytes goes through int32_t first.
   */
  function CastNumber(k: Kind, u: nat): Option<Value> {
    match k
    case Varint(size) =>
      var n := if size == 8 then Signed(u, TWO64) else Signed(u % TWO32, TWO32);
      if SignedFits(n, size) then Some(Num(n)) else None
    case UVarint(size) =>
      if UnsignedFits(u, size) then Some(Num(u)) else None
    case SVarint(size) =>
      var n := Unzigzag(u % TWO64);
      if SignedFits(n, size) then Some(Num(n)) else None
    case _ => None
  }

  function WithRest(v: Option<Value>, rest: Bytes): Option<Read<Value>> {
    if v.None? then None else Some(Read(v.value, rest))
  }

  /** The bytes before the first NUL. */
  function CString(b: Bytes): Bytes {
    if b == [] || b[0] == 0 then [] else [b[0]] + CString(b[1..])
  }

  /** pb_dec_bytes, pb_dec_string and pb_dec_fixed_length_bytes on a delimited payload. */
  function CastBytes(k: Kind, b: Bytes): Option<Value> {
    match k
    case Blob(cap) => if |b| > cap then None else Some(Str(b))
    case Text(cap) => if |b| + 1 > cap then None else Some(Str(CString(b)))
    case FixedBlob(len) =>
      if b == [] then Some(Str(Zeros(len))) else if |b| != len then None else Some(Str(b))
    case _ => None
  }

  /** A scalar or byte field: everything but a submessage. */
  function DecScalar(k: Kind, input: Bytes): (r: Option<Read<Value>>)
    requires !k.Submessage?
    ensures r.Some? ==> |r.value.rest| < |input|
  {
    if k.Bool? then
      var r := Decode32(input);
      if r.None? then None else Some(Read(Num(if r.value.value != 0 then 1 else 0), r.value.rest))
    else if k.Fixed32? || k.Fixed64? then
      var n := if k.Fixed32? then 4 else 8;
      if |input| < n then None else Some(Read(Num(FromLittleEndian(input[..n])), input[n..]))
    else if k.Varint? || k.UVarint? || k.SVarint? then
      var r := Decode64(input, 0, 0);
      if r.None? then None else WithRest(CastNumber(k, r.value.value), r.value.rest)
    else
      var r := TakeDelimited(input);
      if r.None? then None else WithRest(CastBytes(k, r.value.value), r.value.rest)
  }

  /** One value; a submessage is decoded into `prev`. */
  function DecValue(k: Kind, prev: Value, input: Bytes): (r: Option<Read<Value>>)
    ensures r.Some? ==> |r.value.rest| < |input|
    decreases |input|, 1
  {
    if !k.Submessage? then DecScalar(k, input)
    else
      var sub := TakeDelimited(input);
      if sub.None? then None
      else
        var r := DecMessage(k.fields, if prev.Msg? then prev.slots else [], sub.value.value);
        if r.None? then None else Some(Read(Msg(r.value.value), sub.value.rest))
  }

  /** A packed array's payload, after the entries in `items`. */
  function DecPacked(k: Kind, max: nat, items: seq<Value>, payload: Bytes): Option<seq<Value>>
    decreases |payload|, 2
  {
    if payload == [] then Some(items)
    else if |items| >= max then None
    else
      var r := DecValue(k, Default(k), payload);
      if r.None? then None else DecPacked(k, max, items + [r.value.value], r.value.rest)
  }

  /** decode_static_field: the new contents of the field's slot. */
  function DecSlot(f: Field, slot: seq<Value>, wireType: nat, input: Bytes): (r: Option<Read<seq<Value>>>)
    ensures r.Some? ==> |r.value.rest| < |input|
    decreases |input|, 2
  {
    if f.rule.Repeated? && wireType == 2 && Packable(f.kind) then
      var sub := TakeDelimited(input);
      if sub.None? then None
      else
        var items := DecPacked(f.kind, f.rule.max, slot, sub.value.value);
        if items.None? then None else Some(Read(items.value, sub.value.rest))
    else if f.rule.Repeated? then
      if |slot| >= f.rule.max then None
      else
        var r := DecValue(f.kind, Default(f.kind), input);
        if r.None? then None else Some(Read(slot + [r.value.value], r.value.rest))
    else
      var r := DecValue(f.kind, if slot == [] then Default(f.kind) else slot[0], input);
      if r.None? then None else Some(Read([r.value.value], r.value.rest))
  }

  /** Setting a member of a union unsets the others. */
  function Store(fs: seq<Field>, m: Slots, i: nat, slot: seq<Value>): (r: Slots)
    requires i < |fs| == |m|
    ensures |r| == |m|
  {
    seq(|m|, j requires 0 <= j < |m| =>
      if j == i then slot
      else if fs[i].rule.Oneof? && fs[j].rule == fs[i].rule then []
      else m[j])
  }

  datatype Decoded = Decoded(m: Slots, seen: set<nat>, rest: Bytes)

  const MAX_REQUIRED := 64

  function Mark(fs: seq<Field>, i: nat, seen: set<nat>): set<nat>
    requires i < |fs|
  {
    if fs[i].rule.Required? && RequiredIndex(fs, i) < MAX_REQUIRED then seen + {RequiredIndex(fs, i)} else seen
  }

  /** The loop of pb_decode_noinit. A zero tag ends the message early. */
  function DecFrom(fs: seq<Field>, m: Slots, seen: set<nat>, input: Bytes): (r: Option<Decoded>)
    requires |m| == |fs|
    ensures r.Some? ==> |r.value.rest| <= |input| && |r.value.m| == |fs|
    decreases |input|, 0
  {
    if input == [] then Some(Decoded(m, seen, []))
    else
      var t := Decode32(input);
      if t.None? then None
      else if t.value.value == 0 then Some(Decoded(m, seen, t.value.rest))
      else
        var tag, wireType, rest := t.value.value / 8, t.value.value % 8, t.value.rest;
        var i := Find(fs, tag);
        if fs == [] && tag == 0 then
          // the descriptor's terminator answers to tag 0 and reads as a bool
          var r := Decode32(rest);
          if r.None? then None else DecFrom(fs, m, seen, r.value.rest)
        else if i.None? then
          var r := Skip(wireType, rest);
          if r.None? then None else DecFrom(fs, m, seen, r.value)
        else
          var r := DecSlot(fs[i.value], m[i.value], wireType, rest);
          if r.None? then None
          else DecFrom(fs, Store(fs, m, i.value, r.value.value), Mark(fs, i.value, seen), r.value.rest)
  }

  predicate AllSeen(fs: seq<Field>, seen: set<nat>) {
    forall r: nat :: r < RequiredIndex(fs, |fs|) && r < MAX_REQUIRED ==> r in seen
  }

  /** pb_decode_noinit into `m`. */
  function DecMessage(fs: seq<Field>, m: Slots, input: Bytes): (r: Option<Read<Slots>>)
    ensures r.Some? ==> |r.value.rest| <= |input|
    decreases |input|, 1
  {
    if |m| != |fs| then None
    else
      var r := DecFrom(fs, m, {}, input);
      if r.None? || !AllSeen(fs, r.value.seen) then None else Some(Read(r.value.m, r.value.rest))
  }

  /** pb_decode. */
  function Decode(fs: seq<Field>, input: Bytes): Option<Read<Slots>> {
    DecMessage(fs, Defaults(fs), input)
  }
}
