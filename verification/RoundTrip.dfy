/**
 What pb_decode makes of pb_encode's bytes: under the same descriptor the same
 message, under an older descriptor that knows fewer fields its projection.
 */
module RoundTrip {
  import opened Bytes
  import opened Wire
  import opened Schema

  // ------------------------------------------------------ descriptors compared

  /** Every field of `a` is a field of `b`, with the same tag and rule. */
  predicate SubSchema(a: seq<Field>, b: seq<Field>)
    decreases a
  {
    forall i :: 0 <= i < |a| ==> SubField(a[i], b)
  }

  predicate SubField(fa: Field, b: seq<Field>)
    decreases fa
  {
    var j := Find(b, fa.tag);
    j.Some? && fa.rule == b[j.value].rule && SubKind(fa.kind, b[j.value].kind)
  }

  predicate SubKind(ka: Kind, kb: Kind)
    decreases ka
  {
    if ka.Submessage? && kb.Submessage? then SubSchema(ka.fields, kb.fields) else ka == kb
  }

  /** The part of a value that `ka` knows. */
  function Project(ka: Kind, kb: Kind, v: Value): Value
    decreases ka, 0
  {
    if ka.Submessage? && kb.Submessage? && v.Msg? then Msg(ProjectSlots(ka.fields, kb.fields, v.slots)) else v
  }

  function ProjectItems(ka: Kind, kb: Kind, s: seq<Value>): (r: seq<Value>)
    ensures |r| == |s|
    decreases ka, 1
  {
    seq(|s|, t requires 0 <= t < |s| => Project(ka, kb, s[t]))
  }

  function ProjectSlot(fa: Field, b: seq<Field>, m: Slots): seq<Value>
    decreases fa
  {
    var j := Find(b, fa.tag);
    if j.Some? && j.value < |m| then ProjectItems(fa.kind, b[j.value].kind, m[j.value]) else []
  }

  function ProjectSlots(a: seq<Field>, b: seq<Field>, m: Slots): (r: Slots)
    ensures |r| == |a|
    decreases a
  {
    seq(|a|, i requires 0 <= i < |a| => ProjectSlot(a[i], b, m))
  }

  // ------------------------------------------------------- messages that fit

  /**
   The message leaves room for a string's terminator, and every length prefix
   is within the 32 bits the decoder reads it in.
   */
  predicate Fits(k: Kind, v: Value)
    decreases k
  {
    && Encodable(k, v)
    && (k.Text? ==> v.Str? && |v.b| < k.cap)
    && (k.Submessage? ==> v.Msg? && FitsSlots(k.fields, v.slots) && |EncMessage(k.fields, v.slots)| < TWO32)
  }

  predicate FitsSlot(f: Field, s: seq<Value>)
    decreases f
  {
    || (f.rule.Singular? && |s| == 1 && IsZero(f.kind, s[0]))
    || (&& (f.rule.Repeated? ==> |s| <= f.rule.max)
        && (f.rule.Repeated? && Packable(f.kind) ==> |EncPacked(f.kind, s, 0)| < TWO32)
        && (forall t :: 0 <= t < |s| ==> Fits(f.kind, s[t])))
  }

  predicate FitsSlots(fs: seq<Field>, m: Slots)
    decreases fs
  {
    |m| == |fs| && forall i :: 0 <= i < |fs| ==> FitsSlot(fs[i], m[i])
  }

  // --------------------------------------------------------------- one payload

  lemma DelimitedTaken(b: Bytes, rest: Bytes)
    requires |b| < TWO32
    ensures TakeDelimited(Delimited(b) + rest) == Some(Read(b, rest))
  {
    hide Decode32, Wire.Varint;
    assert Delimited(b) + rest == Wire.Varint(|b|) + (b + rest);
    VarintRoundTrip32(|b|, b + rest);
    assert (b + rest)[..|b|] == b && (b + rest)[|b|..] == rest;
  }

  lemma FixedDecodes(k: Kind, v: Value, rest: Bytes)
    requires (k.Fixed32? || k.Fixed64?) && Typed(k, v)
    ensures DecScalar(k, EncValue(k, v) + rest) == Some(Read(v, rest))
  {
    hide Pow2, FromLittleEndian, LittleEndian;
    Pow2Words();
    var n := if k.Fixed32? then 4 else 8;
    LittleEndianInverse(v.n, n);
    var s := LittleEndian(v.n, n);
    assert (s + rest)[..n] == s && (s + rest)[n..] == rest;
  }

  /** The number a varint field puts on the wire. */
  function Code(k: Kind, n: int): nat
    requires -TWO63 <= n < TWO64 && (k.Varint? || k.SVarint? ==> n < TWO63)
    requires !(k.Varint? || k.SVarint?) ==> n >= 0
  {
    if k.Varint? then Unsigned64(n) else if k.SVarint? then Zigzag(n) else n
  }

  lemma SignedCasts(n: int, size: nat)
    requires ValidSize(size) && SignedFits(n, size)
    ensures -TWO63 <= n < TWO63
    ensures CastNumber(Kind.Varint(size), Unsigned64(n)) == Some(Num(n))
  {
    assert size != 8 ==> Unsigned64(n) % TWO32 == if n < 0 then n + TWO32 else n;
  }

  lemma ZigzagCasts(n: int, size: nat)
    requires ValidSize(size) && SignedFits(n, size)
    ensures -TWO63 <= n < TWO63
    ensures CastNumber(Kind.SVarint(size), Zigzag(n)) == Some(Num(n))
  {
    ZigzagInverse(n, 0);
    hide Zigzag, Unzigzag;
  }

  lemma NumberCasts(k: Kind, v: Value)
    requires (k.Varint? || k.UVarint? || k.SVarint?) && Typed(k, v) && Encodable(k, v)
    ensures -TWO63 <= v.n < TWO64 && (!k.UVarint? ==> v.n < TWO63) && (k.UVarint? ==> v.n >= 0)
    ensures Code(k, v.n) < TWO64 && CastNumber(k, Code(k, v.n)) == Some(v)
    ensures EncValue(k, v) == Wire.Varint(Code(k, v.n))
  {
    if k.UVarint? {
      hide Wire.Varint, Zigzag;
    } else {
      SignedCasts(v.n, k.size);
      ZigzagCasts(v.n, k.size);
      hide Wire.Varint, CastNumber, Zigzag, Unsigned64, Signed;
    }
  }

  lemma NumberDecodes(k: Kind, v: Value, rest: Bytes)
    requires (k.Varint? || k.UVarint? || k.SVarint?) && Typed(k, v) && Encodable(k, v)
    ensures DecScalar(k, EncValue(k, v) + rest) == Some(Read(v, rest))
  {
    NumberCasts(k, v);
    hide Wire.Varint, Decode64, Code, CastNumber, Typed, EncValue;
    VarintRoundTrip64(Code(k, v.n), rest);
  }

  lemma {:induction false} CStringWhole(b: Bytes)
    requires 0 !in b
    ensures CString(b) == b
  {
    if b != [] {
      CStringWhole(b[1..]);
      assert [b[0]] + b[1..] == b;
    }
  }

  lemma BytesDecode(k: Kind, v: Value, rest: Bytes)
    requires (k.Blob? || k.Text? || k.FixedBlob?) && Typed(k, v) && Fits(k, v)
    ensures DecScalar(k, EncValue(k, v) + rest) == Some(Read(v, rest))
  {
    hide TakeDelimited, Delimited;
    DelimitedTaken(v.b, rest);
    if k.Text? { CStringWhole(v.b); }
    if k.FixedBlob? && v.b == [] { assert Zeros(k.len) == v.b; }
  }

  lemma ScalarDecodes(k: Kind, v: Value, rest: Bytes)
    requires !k.Submessage? && Typed(k, v) && Fits(k, v)
    ensures DecScalar(k, EncValue(k, v) + rest) == Some(Read(v, rest))
  {
    if k.Fixed32? || k.Fixed64? {
      FixedDecodes(k, v, rest);
    } else if k.Blob? || k.Text? || k.FixedBlob? {
      BytesDecode(k, v, rest);
    } else if k.Bool? {
      hide Wire.Varint, Decode32;
      VarintRoundTrip32(v.n, rest);
    } else {
      NumberDecodes(k, v, rest);
    }
  }

  // ------------------------------------------------------------------ skipping

  lemma {:induction false} VarintSkips(n: nat, rest: Bytes)
    ensures SkipVarint(Wire.Varint(n) + rest) == Some(rest)
    decreases n
  {
    var input := Wire.Varint(n) + rest;
    if n < 128 {
      assert input[1..] == rest;
    } else {
      assert input[1..] == Wire.Varint(n / 128) + rest;
      VarintSkips(n / 128, rest);
    }
  }

  /** pb_skip_field passes over exactly one payload. */
  lemma ValueSkips(k: Kind, v: Value, rest: Bytes)
    requires Typed(k, v) && Fits(k, v)
    ensures Skip(WireType(k), EncValue(k, v) + rest) == Some(rest)
  {
    hide SkipVarint, TakeDelimited, Delimited, Wire.Varint;
    if k.Fixed32? || k.Fixed64? {
      assert (EncValue(k, v) + rest)[if k.Fixed32? then 4 else 8..] == rest;
    } else if k.Bool? {
      VarintSkips(v.n, rest);
    } else if k.Submessage? {
      DelimitedTaken(EncMessage(k.fields, v.slots), rest);
    } else if k.Blob? || k.Text? || k.FixedBlob? {
      DelimitedTaken(v.b, rest);
    } else {
      NumberCasts(k, v);
      VarintSkips(Code(k, v.n), rest);
    }
  }

  // --------------------------------------------------------------- one record

  lemma TagRead(tag: nat, wireType: nat, rest: Bytes)
    requires 0 < tag < 0x2000_0000 && wireType < 8
    ensures Tag(tag, wireType) + rest != []
    ensures Decode32(Tag(tag, wireType) + rest) == Some(Read(8 * tag + wireType, rest))
  {
    VarintRoundTrip32(8 * tag + wireType, rest);
    hide Decode32;
    assert Wire.Varint(8 * tag + wireType) != [];
  }

  /** A record with an unknown tag is skipped. */
  lemma UnknownRecord(a: seq<Field>, m: Slots, seen: set<nat>, tag: nat, wireType: nat, payload: Bytes, rest: Bytes)
    requires |m| == |a| && 0 < tag < 0x2000_0000 && wireType < 8
    requires Find(a, tag) == None && Skip(wireType, payload + rest) == Some(rest)
    ensures DecFrom(a, m, seen, Tag(tag, wireType) + payload + rest) == DecFrom(a, m, seen, rest)
  {
    hide Decode32, Skip, Find, Tag;
    TagRead(tag, wireType, payload + rest);
    assert Tag(tag, wireType) + payload + rest == Tag(tag, wireType) + (payload + rest);
  }

  /** A record with a known tag goes to that field's slot. */
  lemma KnownRecord(a: seq<Field>, m: Slots, seen: set<nat>, tag: nat, wireType: nat, payload: Bytes, rest: Bytes, i: nat, slot: seq<Value>)
    requires |m| == |a| && 0 < tag < 0x2000_0000 && wireType < 8
    requires Find(a, tag) == Some(i) && DecSlot(a[i], m[i], wireType, payload + rest) == Some(Read(slot, rest))
    ensures DecFrom(a, m, seen, Tag(tag, wireType) + payload + rest)
            == DecFrom(a, Store(a, m, i, slot), Mark(a, i, seen), rest)
  {
    hide Decode32, DecSlot, Find, Tag, Store, Mark;
    TagRead(tag, wireType, payload + rest);
    assert Tag(tag, wireType) + payload + rest == Tag(tag, wireType) + (payload + rest);
  }

  lemma {:induction false} PackedDecodes(k: Kind, max: nat, s: seq<Value>, t: nat)
    requires Packable(k) && t <= |s| <= max
    requires forall x :: 0 <= x < |s| ==> Typed(k, s[x]) && Fits(k, s[x])
    ensures DecPacked(k, max, s[..t], EncPacked(k, s, t)) == Some(s)
    decreases |s| - t
  {
    hide Typed, Fits, EncValue, DecScalar;
    if t == |s| {
      assert s[..t] == s;
    } else {
      var rest := EncPacked(k, s, t + 1);
      ScalarDecodes(k, s[t], rest);
      assert s[..t] + [s[t]] == s[..t + 1];
      PackedDecodes(k, max, s, t + 1);
    }
  }

  // ------------------------------------------------------------ absent fields

  /** Kinds whose default is left out: all but byte fields of a fixed length and submessages that need some field. */
  predicate Omittable(k: Kind)
    decreases k, 0
  {
    match k
    case FixedBlob(len) => len == 0
    case Submessage(fs) => forall i :: 0 <= i < |fs| ==> OmittableField(fs[i])
    case _ => true
  }

  predicate OmittableField(f: Field)
    decreases f, 1
  {
    !f.rule.Required? && (f.rule.Singular? ==> Omittable(f.kind))
  }

  lemma {:induction false} ZeroIff(k: Kind, v: Value)
    requires Typed(k, v)
    ensures IsZero(k, v) <==> v == Default(k) && Omittable(k)
    decreases k, 0
  {
    match k
    case FixedBlob(len) => if len == 0 { assert v.b == Zeros(len); }
    case Submessage(fs) =>
      forall i | 0 <= i < |fs| ensures IsZeroSlot(fs[i], v.slots[i]) <==> v.slots[i] == DefaultSlot(fs[i]) && OmittableField(fs[i]) {
        assert TypedSlot(fs[i], v.slots[i]);
        ZeroSlotIff(fs[i], v.slots[i]);
      }
      hide IsZeroSlot, DefaultSlot, OmittableField, TypedSlot;
      assert v.slots == Defaults(fs) <==> forall i :: 0 <= i < |fs| ==> v.slots[i] == DefaultSlot(fs[i]);
    case _ =>
  }

  lemma {:induction false} ZeroSlotIff(f: Field, s: seq<Value>)
    requires TypedSlot(f, s)
    ensures IsZeroSlot(f, s) <==> s == DefaultSlot(f) && OmittableField(f)
    decreases f, 1
  {
    if f.rule.Singular? { ZeroIff(f.kind, s[0]); }
  }

  lemma ZeroIsDefault(k: Kind, v: Value)
    requires Typed(k, v) && IsZero(k, v)
    ensures v == Default(k)
  {
    ZeroIff(k, v);
  }

  /** A proto3 field writes nothing exactly when it has the default of an omittable kind. */
  lemma DefaultOmitted(f: Field, v: Value)
    requires f.rule.Singular? && Typed(f.kind, v)
    ensures EncField(f, [v]) == [] <==> v == Default(f.kind) && Omittable(f.kind)
  {
    ZeroIff(f.kind, v);
    hide IsZero, Omittable, Default, EncValue, Typed;
    assert EncRecords(f, [v], 0) == Tag(f.tag, WireType(f.kind)) + EncValue(f.kind, v) + EncRecords(f, [v], 1);
    assert Tag(f.tag, WireType(f.kind)) != [];
  }

  lemma {:induction false} ProjectDefault(ka: Kind, kb: Kind)
    requires SubKind(ka, kb)
    ensures Project(ka, kb, Default(kb)) == Default(ka)
    decreases ka
  {
    if ka.Submessage? && kb.Submessage? {
      var a, b := ka.fields, kb.fields;
      forall i | 0 <= i < |a| ensures ProjectSlot(a[i], b, Defaults(b)) == DefaultSlot(a[i]) {
        ProjectDefaultSlot(a[i], b);
      }
      assert ProjectSlots(a, b, Defaults(b)) == Defaults(a);
    }
  }

  lemma {:induction false} ProjectDefaultSlot(fa: Field, b: seq<Field>)
    requires SubField(fa, b)
    ensures ProjectSlot(fa, b, Defaults(b)) == DefaultSlot(fa)
    decreases fa
  {
    ProjectDefault(fa.kind, b[Find(b, fa.tag).value].kind);
  }

  // ------------------------------------------------------------ whole messages

  predicate Compatible(ka: Kind, kb: Kind) {
    SubKind(ka, kb) && WellFormedKind(ka) && WellFormedKind(kb)
  }

  predicate GoodItem(kb: Kind, v: Value) { Typed(kb, v) && Fits(kb, v) }

  /** Field i of `a` reads what field fb wrote, and its union is unset. */
  predicate Matches(a: seq<Field>, i: nat, fb: Field, m: Slots) {
    && |m| == |a| && Find(a, fb.tag) == Some(i) && 0 < fb.tag < 0x2000_0000
    && a[i].rule == fb.rule && Compatible(a[i].kind, fb.kind)
    && (forall x :: 0 <= x < |a| && x != i && fb.rule.Oneof? && a[x].rule == fb.rule ==> m[x] == [])
  }

  lemma StoreKeeps(a: seq<Field>, i: nat, fb: Field, m: Slots, slot: seq<Value>)
    requires Matches(a, i, fb, m)
    ensures Store(a, m, i, slot) == m[i := slot]
    ensures Matches(a, i, fb, m[i := slot])
  {
    hide Compatible;
  }

  lemma {:induction false} ItemDecodes(ka: Kind, kb: Kind, v: Value, rest: Bytes)
    requires Compatible(ka, kb) && GoodItem(kb, v)
    ensures DecValue(ka, Default(ka), EncValue(kb, v) + rest) == Some(Read(Project(ka, kb, v), rest))
    decreases kb, 0
  {
    if !kb.Submessage? {
      ScalarDecodes(kb, v, rest);
    } else {
      var a, b, m := ka.fields, kb.fields, v.slots;
      assert EncValue(kb, v) == Delimited(EncMessage(b, m));
      DelimitedTaken(EncMessage(b, m), rest);
      hide TakeDelimited, Delimited, Fits, DecMessage;
      MessageDecodes(a, b, m);
    }
  }

  lemma {:induction false} OneRecord(a: seq<Field>, i: nat, fb: Field, v: Value, m: Slots, seen: set<nat>, rest: Bytes)
    requires Matches(a, i, fb, m) && GoodItem(fb.kind, v) && !fb.rule.Repeated?
    requires m[i] == DefaultSlot(a[i])
    ensures DecFrom(a, m, seen, EncRecords(fb, [v], 0) + rest)
            == DecFrom(a, m[i := [Project(a[i].kind, fb.kind, v)]], Mark(a, i, seen), rest)
    decreases fb, 0
  {
    var w, p := WireType(fb.kind), EncValue(fb.kind, v);
    ItemDecodes(a[i].kind, fb.kind, v, rest);
    hide GoodItem, Compatible, DecFrom, DecValue, EncValue, Project, Tag, Mark;
    var slot := [Project(a[i].kind, fb.kind, v)];
    assert DecSlot(a[i], m[i], w, p + rest) == Some(Read(slot, rest));
    KnownRecord(a, m, seen, fb.tag, w, p, rest, i, slot);
    StoreKeeps(a, i, fb, m, slot);
    assert EncRecords(fb, [v], 1) == [];
    assert EncRecords(fb, [v], 0) == Tag(fb.tag, w) + p;
  }

  lemma AppendSlot(f: Field, slot: seq<Value>, wireType: nat, input: Bytes, v: Value, rest: Bytes)
    requires f.rule.Repeated? && !Packable(f.kind) && |slot| < f.rule.max
    requires DecValue(f.kind, Default(f.kind), input) == Some(Read(v, rest))
    ensures DecSlot(f, slot, wireType, input) == Some(Read(slot + [v], rest))
  {
    hide DecValue, Default;
  }

  lemma {:induction false} NextRecord(a: seq<Field>, i: nat, fb: Field, s: seq<Value>, t: nat, m: Slots, seen: set<nat>, rest: Bytes)
    requires Matches(a, i, fb, m) && fb.rule.Repeated? && !Packable(fb.kind) && t < |s| && |m[i]| < fb.rule.max
    requires GoodItem(fb.kind, s[t])
    ensures DecFrom(a, m, seen, EncRecords(fb, s, t) + rest)
            == DecFrom(a, m[i := m[i] + [Project(a[i].kind, fb.kind, s[t])]], seen, EncRecords(fb, s, t + 1) + rest)
    decreases fb, 0, 0
  {
    var w, p, more := WireType(fb.kind), EncValue(fb.kind, s[t]), EncRecords(fb, s, t + 1);
    ItemDecodes(a[i].kind, fb.kind, s[t], more + rest);
    assert Packable(a[i].kind) == Packable(fb.kind);
    hide GoodItem, Compatible, DecFrom, DecValue, DecSlot, EncValue, Project, Tag, Packable;
    var v := Project(a[i].kind, fb.kind, s[t]);
    AppendSlot(a[i], m[i], w, p + (more + rest), v, more + rest);
    KnownRecord(a, m, seen, fb.tag, w, p, more + rest, i, m[i] + [v]);
    StoreKeeps(a, i, fb, m, m[i] + [v]);
    assert Tag(fb.tag, w) + p + more + rest == Tag(fb.tag, w) + p + (more + rest);
  }

  lemma {:induction false} ManyRecords(a: seq<Field>, i: nat, fb: Field, s: seq<Value>, t: nat, m: Slots, seen: set<nat>, rest: Bytes)
    requires Matches(a, i, fb, m) && fb.rule.Repeated? && !Packable(fb.kind) && t <= |s| <= fb.rule.max
    requires forall x :: 0 <= x < |s| ==> GoodItem(fb.kind, s[x])
    requires m[i] == ProjectItems(a[i].kind, fb.kind, s)[..t]
    ensures DecFrom(a, m, seen, EncRecords(fb, s, t) + rest)
            == DecFrom(a, m[i := ProjectItems(a[i].kind, fb.kind, s)], seen, rest)
    decreases fb, 0, 1 + |s| - t
  {
    hide GoodItem, Compatible, DecFrom, Project, Packable;
    var all := ProjectItems(a[i].kind, fb.kind, s);
    if t == |s| {
      assert EncRecords(fb, s, t) + rest == rest;
      assert all[..t] == all && m[i := all] == m;
    } else {
      NextRecord(a, i, fb, s, t, m, seen, rest);
      hide EncRecords;
      var slot := all[..t + 1];
      assert slot == all[..t] + [Project(a[i].kind, fb.kind, s[t])];
      StoreKeeps(a, i, fb, m, slot);
      ManyRecords(a, i, fb, s, t + 1, m[i := slot], seen, rest);
      assert m[i := slot][i := all] == m[i := all];
    }
  }

  lemma ProjectScalars(ka: Kind, kb: Kind, s: seq<Value>)
    requires SubKind(ka, kb) && !kb.Submessage?
    ensures ka == kb && ProjectItems(ka, kb, s) == s
  {
  }

  lemma PackedRecord(a: seq<Field>, i: nat, fb: Field, s: seq<Value>, m: Slots, seen: set<nat>, rest: Bytes)
    requires Matches(a, i, fb, m) && fb.rule.Repeated? && Packable(fb.kind) && |s| <= fb.rule.max
    requires forall x :: 0 <= x < |s| ==> GoodItem(fb.kind, s[x])
    requires |EncPacked(fb.kind, s, 0)| < TWO32 && m[i] == []
    ensures DecFrom(a, m, seen, Tag(fb.tag, 2) + Delimited(EncPacked(fb.kind, s, 0)) + rest)
            == DecFrom(a, m[i := ProjectItems(a[i].kind, fb.kind, s)], seen, rest)
  {
    var p := EncPacked(fb.kind, s, 0);
    DelimitedTaken(p, rest);
    PackedDecodes(fb.kind, fb.rule.max, s, 0);
    ProjectScalars(a[i].kind, fb.kind, s);
    hide GoodItem, Compatible, DecFrom, DecPacked, EncPacked, Delimited, TakeDelimited, Tag, ProjectItems;
    assert s[..0] == [];
    assert DecSlot(a[i], m[i], 2, Delimited(p) + rest) == Some(Read(s, rest));
    KnownRecord(a, m, seen, fb.tag, 2, Delimited(p), rest, i, s);
    StoreKeeps(a, i, fb, m, s);
  }

  /** All a field wrote, read back into its untouched slot. */
  lemma {:induction false} FieldDecodes(a: seq<Field>, i: nat, fb: Field, s: seq<Value>, m: Slots, seen: set<nat>, rest: Bytes)
    requires Matches(a, i, fb, m) && TypedSlot(fb, s) && FitsSlot(fb, s) && m[i] == DefaultSlot(a[i])
    ensures DecFrom(a, m, seen, EncField(fb, s) + rest)
            == DecFrom(a, m[i := ProjectItems(a[i].kind, fb.kind, s)], Mark(a, i, seen), rest)
    decreases fb, 1
  {
    var all := ProjectItems(a[i].kind, fb.kind, s);
    hide DecFrom;
    if fb.rule.Singular? && IsZero(fb.kind, s[0]) {
      ZeroIsDefault(fb.kind, s[0]);
      ProjectDefault(a[i].kind, fb.kind);
      assert EncField(fb, s) + rest == rest;
      assert all == [Project(a[i].kind, fb.kind, s[0])];
      assert m[i := all] == m;
    } else if s == [] {
      assert EncField(fb, s) + rest == rest;
      assert m[i := all] == m;
    } else if fb.rule.Repeated? && Packable(fb.kind) {
      PackedRecord(a, i, fb, s, m, seen, rest);
    } else if fb.rule.Repeated? {
      ManyRecords(a, i, fb, s, 0, m, seen, rest);
    } else {
      assert s == [s[0]];
      OneRecord(a, i, fb, s[0], m, seen, rest);
      assert all == [Project(a[i].kind, fb.kind, s[0])];
    }
  }

  predicate Reached(b: seq<Field>, tag: nat, j: nat) {
    Find(b, tag).Some? && Find(b, tag).value < j
  }

  /** The destination when the fields of `b` before index j have been read. */
  function After(a: seq<Field>, b: seq<Field>, m: Slots, j: nat): (r: Slots)
    ensures |r| == |a|
  {
    seq(|a|, i requires 0 <= i < |a| =>
      if Reached(b, a[i].tag, j) then ProjectSlot(a[i], b, m) else DefaultSlot(a[i]))
  }

  lemma FindIs(b: seq<Field>, j: nat)
    requires WellFormed(b) && j < |b|
    ensures Find(b, b[j].tag) == Some(j)
  {
    hide Find;
  }

  /** What a required field of `a` has marked by then. */
  ghost predicate Marked(a: seq<Field>, b: seq<Field>, j: nat, seen: set<nat>) {
    forall i :: 0 <= i < |a| && a[i].rule.Required? && RequiredIndex(a, i) < MAX_REQUIRED && Reached(b, a[i].tag, j) ==>
      RequiredIndex(a, i) in seen
  }

  lemma AfterKnown(a: seq<Field>, b: seq<Field>, m: Slots, j: nat, i: nat, seen: set<nat>)
    requires WellFormed(a) && WellFormed(b) && j < |b| == |m| && Find(a, b[j].tag) == Some(i)
    ensures After(a, b, m, j)[i] == DefaultSlot(a[i])
    ensures After(a, b, m, j + 1) == After(a, b, m, j)[i := ProjectItems(a[i].kind, b[j].kind, m[j])]
    ensures Marked(a, b, j, seen) ==> Marked(a, b, j + 1, Mark(a, i, seen))
  {
    FindIs(b, j);
    hide Find, WellFormedField, ProjectItems, DefaultSlot, RequiredIndex;
    assert forall x :: 0 <= x < |a| && x != i ==> a[x].tag != b[j].tag;
  }

  lemma AfterUnknown(a: seq<Field>, b: seq<Field>, m: Slots, j: nat, seen: set<nat>)
    requires j < |b| && Find(a, b[j].tag) == None
    ensures After(a, b, m, j + 1) == After(a, b, m, j)
    ensures Marked(a, b, j, seen) ==> Marked(a, b, j + 1, seen)
  {
    hide Find, ProjectSlot, DefaultSlot, RequiredIndex;
    assert forall x :: 0 <= x < |a| ==> a[x].tag != b[j].tag;
  }

  lemma UnsetMember(a: seq<Field>, b: seq<Field>, m: Slots, j: nat, i: nat, x: nat)
    requires WellFormed(a) && WellFormed(b) && SubSchema(a, b) && TypedSlots(b, m)
    requires j < |b| && Find(a, b[j].tag) == Some(i) && m[j] != []
    requires x < |a| && x != i && b[j].rule.Oneof? && a[x].rule == b[j].rule
    ensures After(a, b, m, j)[x] == []
  {
    hide TypedSlot, WellFormedField, Find;
    assert a[x].tag != b[j].tag;
    assert SubField(a[x], b);
    var y := Find(b, a[x].tag).value;
    assert Exclusive(b, m) && m[y] == [];
  }

  /** The union of a field that wrote something is still unset. */
  lemma UnionUnset(a: seq<Field>, b: seq<Field>, m: Slots, j: nat, i: nat)
    requires WellFormed(a) && WellFormed(b) && SubSchema(a, b) && TypedSlots(b, m)
    requires j < |b| && Find(a, b[j].tag) == Some(i) && m[j] != []
    ensures Matches(a, i, b[j], After(a, b, m, j))
  {
    FindIs(b, j);
    assert SubField(a[i], b) && WellFormedField(a[i]) && WellFormedField(b[j]);
    hide Find, After, TypedSlots, SubSchema;
    assert Compatible(a[i].kind, b[j].kind);
    hide WellFormed, WellFormedField, Compatible, SubField;
    forall x | 0 <= x < |a| && x != i && b[j].rule.Oneof? && a[x].rule == b[j].rule
      ensures After(a, b, m, j)[x] == []
    {
      UnsetMember(a, b, m, j, i, x);
    }
  }

  lemma {:induction false} RequiredAt(fs: seq<Field>, n: nat, r: nat) returns (i: nat)
    requires n <= |fs| && r < RequiredIndex(fs, n)
    ensures i < n && fs[i].rule.Required? && RequiredIndex(fs, i) == r
  {
    if fs[n - 1].rule.Required? && RequiredIndex(fs, n - 1) == r {
      i := n - 1;
    } else {
      i := RequiredAt(fs, n - 1, r);
    }
  }

  lemma AllMarked(a: seq<Field>, b: seq<Field>, seen: set<nat>)
    requires SubSchema(a, b) && Marked(a, b, |b|, seen)
    ensures AllSeen(a, seen)
  {
    hide RequiredIndex, Find;
    forall r: nat | r < RequiredIndex(a, |a|) && r < MAX_REQUIRED ensures r in seen {
      var i := RequiredAt(a, |a|, r);
      assert SubField(a[i], b);
    }
  }

  lemma AfterAll(a: seq<Field>, b: seq<Field>, m: Slots)
    requires SubSchema(a, b)
    ensures After(a, b, m, |b|) == ProjectSlots(a, b, m)
  {
    hide Find, ProjectSlot;
    assert forall i :: 0 <= i < |a| ==> SubField(a[i], b);
  }

  predicate GoodMessage(b: seq<Field>, m: Slots) { TypedSlots(b, m) && FitsSlots(b, m) }

  /** One field of `b`, whether `a` knows it or not. */
  lemma {:induction false} NextField(a: seq<Field>, b: seq<Field>, m: Slots, j: nat, seen: set<nat>, rest: Bytes) returns (seen': set<nat>)
    requires WellFormed(a) && WellFormed(b) && SubSchema(a, b) && TypedSlots(b, m)
    requires j < |b| && FitsSlot(b[j], m[j]) && Marked(a, b, j, seen)
    ensures Marked(a, b, j + 1, seen')
    ensures DecFrom(a, After(a, b, m, j), seen, EncField(b[j], m[j]) + rest)
            == DecFrom(a, After(a, b, m, j + 1), seen', rest)
    decreases b, 0
  {
    hide DecFrom, After, Marked, Exclusive;
    var i := Find(a, b[j].tag);
    assert TypedSlot(b[j], m[j]) && FitsSlot(b[j], m[j]) && WellFormedField(b[j]);
    if i.None? {
      seen' := seen;
      AfterUnknown(a, b, m, j, seen);
      UnknownField(a, b[j], m[j], After(a, b, m, j), seen, rest);
    } else {
      seen' := Mark(a, i.value, seen);
      AfterKnown(a, b, m, j, i.value, seen);
      if m[j] == [] {
        EmptyField(a, b, m, j, i.value);
        assert EncField(b[j], m[j]) + rest == rest;
      } else {
        UnionUnset(a, b, m, j, i.value);
        FieldDecodes(a, i.value, b[j], m[j], After(a, b, m, j), seen, rest);
      }
    }
  }

  /** A field that wrote nothing leaves its slot as it was, and is not required. */
  lemma EmptyField(a: seq<Field>, b: seq<Field>, m: Slots, j: nat, i: nat)
    requires WellFormed(a) && WellFormed(b) && SubSchema(a, b) && TypedSlots(b, m)
    requires j < |b| && Find(a, b[j].tag) == Some(i) && m[j] == []
    ensures EncField(b[j], m[j]) == [] && !a[i].rule.Required?
    ensures After(a, b, m, j + 1) == After(a, b, m, j)
  {
    FindIs(b, j);
    assert SubField(a[i], b) && TypedSlot(b[j], m[j]);
    AfterKnown(a, b, m, j, i, {});
    hide After;
    assert ProjectItems(a[i].kind, b[j].kind, m[j]) == [];
  }

  lemma {:induction false} UnknownField(a: seq<Field>, fb: Field, s: seq<Value>, m: Slots, seen: set<nat>, rest: Bytes)
    requires |m| == |a| && Find(a, fb.tag) == None && WellFormedField(fb) && TypedSlot(fb, s) && FitsSlot(fb, s)
    ensures DecFrom(a, m, seen, EncField(fb, s) + rest) == DecFrom(a, m, seen, rest)
  {
    hide DecFrom, Find;
    if (fb.rule.Singular? && IsZero(fb.kind, s[0])) || s == [] {
      assert EncField(fb, s) + rest == rest;
    } else if fb.rule.Repeated? && Packable(fb.kind) {
      var p := EncPacked(fb.kind, s, 0);
      DelimitedTaken(p, rest);
      hide TakeDelimited, Delimited, EncPacked;
      UnknownRecord(a, m, seen, fb.tag, 2, Delimited(p), rest);
    } else {
      UnknownRecords(a, fb, s, 0, m, seen, rest);
    }
  }

  lemma {:induction false} UnknownRecords(a: seq<Field>, fb: Field, s: seq<Value>, t: nat, m: Slots, seen: set<nat>, rest: Bytes)
    requires |m| == |a| && Find(a, fb.tag) == None && WellFormedField(fb) && t <= |s|
    requires forall x :: 0 <= x < |s| ==> GoodItem(fb.kind, s[x])
    ensures DecFrom(a, m, seen, EncRecords(fb, s, t) + rest) == DecFrom(a, m, seen, rest)
    decreases |s| - t
  {
    if t == |s| {
      assert EncRecords(fb, s, t) + rest == rest;
    } else {
      var w, p, more := WireType(fb.kind), EncValue(fb.kind, s[t]), EncRecords(fb, s, t + 1);
      ValueSkips(fb.kind, s[t], more + rest);
      hide DecFrom, Find, EncValue, Tag, GoodItem, Skip;
      UnknownRecord(a, m, seen, fb.tag, w, p, more + rest);
      assert Tag(fb.tag, w) + p + more + rest == Tag(fb.tag, w) + p + (more + rest);
      UnknownRecords(a, fb, s, t + 1, m, seen, rest);
    }
  }

  lemma {:induction false} FieldsDecode(a: seq<Field>, b: seq<Field>, m: Slots, j: nat, seen: set<nat>)
    requires WellFormed(a) && WellFormed(b) && SubSchema(a, b) && GoodMessage(b, m)
    requires j <= |b| && Marked(a, b, j, seen)
    ensures var r := DecFrom(a, After(a, b, m, j), seen, EncFrom(b, m, j));
            r.Some? && r.value.m == ProjectSlots(a, b, m) && r.value.rest == [] && AllSeen(a, r.value.seen)
    decreases b, 1, |b| - j
  {
    assert |m| == |b|;
    hide After, Marked, SubSchema, WellFormed, GoodMessage, AllSeen, ProjectSlots;
    if j == |b| {
      AfterAll(a, b, m);
      AllMarked(a, b, seen);
    } else {
      hide DecFrom;
      var seen' := NextField(a, b, m, j, seen, EncFrom(b, m, j + 1));
      FieldsDecode(a, b, m, j + 1, seen');
    }
  }

  /** Forward compatibility: an older descriptor reads the projection and all the bytes. */
  lemma {:induction false} MessageDecodes(a: seq<Field>, b: seq<Field>, m: Slots)
    requires WellFormed(a) && WellFormed(b) && SubSchema(a, b) && TypedSlots(b, m) && FitsSlots(b, m)
    ensures Decode(a, EncMessage(b, m)) == Some(Read(ProjectSlots(a, b, m), []))
    decreases b, 2
  {
    assert After(a, b, m, 0) == Defaults(a);
    hide DecFrom, After, SubSchema, WellFormed;
    FieldsDecode(a, b, m, 0, {});
  }

  // ------------------------------------------------------------ the round trip

  lemma {:induction false} SchemaSelf(b: seq<Field>)
    requires WellFormed(b)
    ensures SubSchema(b, b)
    decreases b
  {
    forall i | 0 <= i < |b| ensures SubField(b[i], b) {
      FindIs(b, i);
      FieldSelf(b[i]);
    }
  }

  lemma {:induction false} FieldSelf(f: Field)
    requires WellFormedField(f)
    ensures SubKind(f.kind, f.kind)
    decreases f
  {
    if f.kind.Submessage? { SchemaSelf(f.kind.fields); }
  }

  lemma {:induction false} ProjectSelf(b: seq<Field>, m: Slots)
    requires WellFormed(b) && TypedSlots(b, m)
    ensures ProjectSlots(b, b, m) == m
    decreases b
  {
    forall i | 0 <= i < |b| ensures ProjectSlot(b[i], b, m) == m[i] {
      FindIs(b, i);
      assert WellFormedField(b[i]) && TypedSlot(b[i], m[i]);
      ItemsSelf(b[i], m[i]);
    }
  }

  lemma {:induction false} ItemsSelf(f: Field, s: seq<Value>)
    requires WellFormedField(f) && TypedSlot(f, s)
    ensures ProjectItems(f.kind, f.kind, s) == s
    decreases f
  {
    forall t | 0 <= t < |s| ensures Project(f.kind, f.kind, s[t]) == s[t] {
      if f.kind.Submessage? {
        assert Typed(f.kind, s[t]);
        ProjectSelf(f.kind.fields, s[t].slots);
      }
    }
  }

  /** Decoding what was encoded gives the message back and leaves no byte. */
  lemma MessageRoundTrip(fs: seq<Field>, m: Slots)
    requires WellFormed(fs) && TypedSlots(fs, m) && FitsSlots(fs, m)
    ensures Decode(fs, EncMessage(fs, m)) == Some(Read(m, []))
  {
    SchemaSelf(fs);
    ProjectSelf(fs, m);
    MessageDecodes(fs, fs, m);
  }

  /** A string that fills its array, leaving no room for the terminator, is written but not read back. */
  lemma FullTextIsRefused(cap: nat, b: Bytes, rest: Bytes)
    requires |b| == cap < TWO32 && 0 !in b
    ensures Encodable(Text(cap), Str(b)) && Typed(Text(cap), Str(b))
    ensures DecValue(Text(cap), Default(Text(cap)), EncValue(Text(cap), Str(b)) + rest) == None
  {
    DelimitedTaken(b, rest);
    hide TakeDelimited, Delimited;
  }
}
