/**
 The messages that do not survive the wire: a string that fills its array, and
 a length prefix the decoder cannot read. For these, and for no others, what the
 encoder writes without an error is refused by the decoder.
 */
module Refusals {
  import opened Bytes
  import opened Wire
  import opened Schema
  import opened RoundTrip

  // ---------------------------------------------------- lengths beyond 32 bits

  /** From bit 35 on a canonical varint below 2^63 only makes matters worse. */
  lemma {:induction false} LongTail(q: nat, k: nat, result: nat, rest: Bytes)
    requires 1 <= k <= 4 && 0 < q < Pow2(7 * k)
    ensures Decode32From(Wire.Varint(q) + rest, 63 - 7 * k, result) == None
    decreases k
  {
    var input := Wire.Varint(q) + rest;
    if q < 128 {
      assert input[0] == q && input[0] % 128 != 0;
    } else {
      assert input[0] == q % 128 + 128 && input[1..] == Wire.Varint(q / 128) + rest;
      PowStep(0);
      PowStep(k - 1);
      LongTail(q / 128, k - 1, result, rest);
    }
  }

  lemma PowStep(k: nat)
    ensures Pow2(7 * (k + 1)) == 128 * Pow2(7 * k) && Pow2(0) == 1
  {
    var e := 7 * k;
    assert 7 * (k + 1) == e + 7;
    assert Pow2(e + 7) == 2 * Pow2(e + 6) && Pow2(e + 6) == 2 * Pow2(e + 5) && Pow2(e + 5) == 2 * Pow2(e + 4);
    assert Pow2(e + 4) == 2 * Pow2(e + 3) && Pow2(e + 3) == 2 * Pow2(e + 2) && Pow2(e + 2) == 2 * Pow2(e + 1);
  }

  lemma Words()
    ensures Pow2(28) == 0x1000_0000 && Pow2(35) == 0x8_0000_0000
  {
    PowStep(0);
    PowStep(1);
    PowStep(2);
    PowStep(3);
    PowStep(4);
  }

  /** The first five bytes, with `n` still to come at bit 7k. */
  lemma {:induction false} LongHead(n: nat, k: nat, result: nat, rest: Bytes)
    requires 1 <= k <= 4
    requires k == 1 ==> 0x200_0000 <= n < 0x100_0000_0000_0000
    requires k == 2 ==> 0x4_0000 <= n < 0x2_0000_0000_0000
    requires k == 3 ==> 0x800 <= n < 0x400_0000_0000
    requires k == 4 ==> 16 <= n < 0x8_0000_0000
    ensures Decode32From(Wire.Varint(n) + rest, 7 * k, result) == None
    decreases 4 - k
  {
    hide Pow2, Or;
    var input := Wire.Varint(n) + rest;
    if n < 128 {
      assert k == 4 && input[0] == n;
      assert n / 16 % 8 != 0;
    } else {
      assert input[0] == n % 128 + 128 && input[1..] == Wire.Varint(n / 128) + rest;
      var sum := Or(result, input[0] % 128 * Pow2(7 * k) % TWO32);
      assert Decode32From(input, 7 * k, result) == Decode32From(input[1..], 7 * k + 7, sum);
      if k < 4 {
        LongHead(n / 128, k + 1, sum, rest);
      } else {
        Words();
        LongTail(n / 128, 4, sum, rest);
      }
    }
  }

  lemma LongRefused(n: nat, rest: Bytes)
    requires TWO32 <= n < TWO63
    ensures Decode32(Wire.Varint(n) + rest) == None
  {
    hide Decode32From;
    var input := Wire.Varint(n) + rest;
    assert input[0] == n % 128 + 128 && input[1..] == Wire.Varint(n / 128) + rest;
    LongHead(n / 128, 1, input[0] % 128, rest);
  }

  lemma LongDelimited(b: Bytes, rest: Bytes)
    requires TWO32 <= |b| < TWO63
    ensures TakeDelimited(Delimited(b) + rest) == None
  {
    hide Decode32, Wire.Varint;
    assert Delimited(b) + rest == Wire.Varint(|b|) + (b + rest);
    LongRefused(|b|, b + rest);
  }

  // ------------------------------------------------------------------- refusal

  lemma FullText(cap: nat, b: Bytes, rest: Bytes)
    requires |b| == cap < TWO32
    ensures DecScalar(Text(cap), EncValue(Text(cap), Str(b)) + rest) == None
  {
    DelimitedTaken(b, rest);
    hide TakeDelimited, Delimited;
  }

  /** A value that does not fit is refused, however deep the reason lies. */
  lemma {:induction false} ItemRefused(k: Kind, v: Value, rest: Bytes)
    requires WellFormedKind(k) && Typed(k, v) && Encodable(k, v) && !Fits(k, v) && |EncValue(k, v)| < TWO63
    ensures DecValue(k, Default(k), EncValue(k, v) + rest) == None
    decreases k, 0
  {
    if k.Text? {
      FullText(k.cap, v.b, rest);
    } else {
      var fs, m := k.fields, v.slots;
      var b := EncMessage(fs, m);
      assert EncValue(k, v) == Delimited(b) && |b| <= |Delimited(b)|;
      if |b| >= TWO32 {
        LongDelimited(b, rest);
        hide TakeDelimited, Delimited;
      } else {
        DelimitedTaken(b, rest);
        hide TakeDelimited, Delimited, DecMessage;
        MessageRefused(fs, m);
      }
    }
  }

  lemma KnownRefused(a: seq<Field>, m: Slots, seen: set<nat>, tag: nat, wireType: nat, payload: Bytes, rest: Bytes, i: nat)
    requires |m| == |a| && 0 < tag < 0x2000_0000 && wireType < 8
    requires Find(a, tag) == Some(i) && DecSlot(a[i], m[i], wireType, payload + rest) == None
    ensures DecFrom(a, m, seen, Tag(tag, wireType) + payload + rest) == None
  {
    hide Decode32, DecSlot, Find, Tag, Store, Mark;
    TagRead(tag, wireType, payload + rest);
    assert Tag(tag, wireType) + payload + rest == Tag(tag, wireType) + (payload + rest);
  }

  lemma SlotRefused(f: Field, slot: seq<Value>, wireType: nat, input: Bytes)
    requires DecValue(f.kind, Default(f.kind), input) == None
    requires if f.rule.Repeated? then !Packable(f.kind) else slot == DefaultSlot(f)
    ensures DecSlot(f, slot, wireType, input) == None
  {
    hide DecValue, Default;
  }

  lemma PackedFit(f: Field, s: seq<Value>)
    requires TypedSlot(f, s) && EncodableSlot(f, s) && f.rule.Repeated? && Packable(f.kind) && !FitsSlot(f, s)
    ensures |EncPacked(f.kind, s, 0)| >= TWO32
  {
    hide EncPacked;
    assert forall t :: 0 <= t < |s| ==> Fits(f.kind, s[t]);
  }

  lemma {:induction false} EntryRefused(fs: seq<Field>, j: nat, s: seq<Value>, t: nat, m: Slots, seen: set<nat>, rest: Bytes)
    requires j < |fs| && WellFormedField(fs[j]) && Matches(fs, j, fs[j], m)
    requires fs[j].rule.Repeated? && !Packable(fs[j].kind) && t < |s|
    requires Typed(fs[j].kind, s[t]) && Encodable(fs[j].kind, s[t]) && !Fits(fs[j].kind, s[t]) && |EncRecords(fs[j], s, t)| < TWO63
    ensures DecFrom(fs, m, seen, EncRecords(fs[j], s, t) + rest) == None
    decreases fs[j], 0, 0
  {
    var f := fs[j];
    hide *;
    EntrySplit(f, s, t, rest);
    ItemRefused(f.kind, s[t], EncRecords(f, s, t + 1) + rest);
    RecordRefused(fs, j, m, seen, EncValue(f.kind, s[t]), EncRecords(f, s, t + 1) + rest);
  }

  lemma EntrySplit(f: Field, s: seq<Value>, t: nat, rest: Bytes)
    requires t < |s|
    ensures EncRecords(f, s, t) + rest == Tag(f.tag, WireType(f.kind)) + EncValue(f.kind, s[t]) + (EncRecords(f, s, t + 1) + rest)
    ensures |EncValue(f.kind, s[t])| <= |EncRecords(f, s, t)|
  {
    var a, b, c := Tag(f.tag, WireType(f.kind)), EncValue(f.kind, s[t]), EncRecords(f, s, t + 1);
    assert EncRecords(f, s, t) == a + b + c;
    hide *;
    assert a + b + c + rest == a + b + (c + rest);
  }

  /** A record whose payload is refused. */
  lemma RecordRefused(fs: seq<Field>, j: nat, m: Slots, seen: set<nat>, p: Bytes, rest: Bytes)
    requires j < |fs| && Matches(fs, j, fs[j], m)
    requires if fs[j].rule.Repeated? then !Packable(fs[j].kind) else m[j] == DefaultSlot(fs[j])
    requires DecValue(fs[j].kind, Default(fs[j].kind), p + rest) == None
    ensures DecFrom(fs, m, seen, Tag(fs[j].tag, WireType(fs[j].kind)) + p + rest) == None
  {
    hide DecFrom, DecValue, DecSlot, Compatible, Find, Tag, Default, DefaultSlot, Packable;
    SlotRefused(fs[j], m[j], WireType(fs[j].kind), p + rest);
    KnownRefused(fs, m, seen, fs[j].tag, WireType(fs[j].kind), p, rest, j);
  }

  /** Some entry from t on does not fit. */
  lemma {:induction false} RecordsRefused(fs: seq<Field>, j: nat, s: seq<Value>, t: nat, m: Slots, seen: set<nat>, rest: Bytes)
    requires j < |fs| && WellFormedField(fs[j]) && Matches(fs, j, fs[j], m) && TypedSlot(fs[j], s)
    requires fs[j].rule.Repeated? && !Packable(fs[j].kind) && |s| <= fs[j].rule.max && |m[j]| == t <= |s|
    requires forall x :: 0 <= x < |s| ==> Encodable(fs[j].kind, s[x])
    requires exists x :: t <= x < |s| && !Fits(fs[j].kind, s[x])
    requires |EncRecords(fs[j], s, t)| < TWO63
    ensures DecFrom(fs, m, seen, EncRecords(fs[j], s, t) + rest) == None
    decreases fs[j], 0, 1 + |s| - t
  {
    var f := fs[j];
    hide DecFrom, Fits, Encodable, Project, Matches, EncValue, Tag;
    if Fits(f.kind, s[t]) {
      NextRecord(fs, j, f, s, t, m, seen, rest);
      assert |EncRecords(f, s, t + 1)| <= |EncRecords(f, s, t)|;
      hide EncRecords;
      var slot := m[j] + [Project(f.kind, f.kind, s[t])];
      StoreKeeps(fs, j, f, m, slot);
      RecordsRefused(fs, j, s, t + 1, m[j := slot], seen, rest);
    } else {
      EntryRefused(fs, j, s, t, m, seen, rest);
    }
  }

  lemma {:induction false} OneRefused(fs: seq<Field>, j: nat, v: Value, m: Slots, seen: set<nat>, rest: Bytes)
    requires j < |fs| && WellFormedField(fs[j]) && Matches(fs, j, fs[j], m) && !fs[j].rule.Repeated?
    requires Typed(fs[j].kind, v) && Encodable(fs[j].kind, v) && !Fits(fs[j].kind, v)
    requires m[j] == DefaultSlot(fs[j]) && |EncRecords(fs[j], [v], 0)| < TWO63
    ensures DecFrom(fs, m, seen, EncRecords(fs[j], [v], 0) + rest) == None
    decreases fs[j], 0, 0
  {
    var f := fs[j];
    EntrySplit(f, [v], 0, rest);
    assert EncRecords(f, [v], 1) == [];
    hide EncRecords, DecFrom, Fits, Encodable, EncValue, Tag, DecValue, Compatible, Find;
    ItemRefused(f.kind, v, rest);
    RecordRefused(fs, j, m, seen, EncValue(f.kind, v), rest);
    assert [] + rest == rest;
  }

  lemma {:induction false} FieldRefused(fs: seq<Field>, j: nat, s: seq<Value>, m: Slots, seen: set<nat>, rest: Bytes)
    requires j < |fs| && WellFormedField(fs[j]) && Matches(fs, j, fs[j], m) && m[j] == DefaultSlot(fs[j])
    requires TypedSlot(fs[j], s) && EncodableSlot(fs[j], s) && !FitsSlot(fs[j], s) && |EncField(fs[j], s)| < TWO63
    ensures DecFrom(fs, m, seen, EncField(fs[j], s) + rest) == None
    decreases fs[j], 1
  {
    var f := fs[j];
    hide DecFrom;
    assert s != [] by { NothingFits(f); }
    if f.rule.Repeated? && Packable(f.kind) {
      PackedFit(f, s);
      var b := EncPacked(f.kind, s, 0);
      assert EncField(f, s) == Tag(f.tag, 2) + Delimited(b) && |b| <= |Delimited(b)|;
      LongDelimited(b, rest);
      hide TakeDelimited, Delimited, EncPacked, Tag, EncField;
      KnownRefused(fs, m, seen, f.tag, 2, Delimited(b), rest, j);
    } else if f.rule.Repeated? {
      RecordsRefused(fs, j, s, 0, m, seen, rest);
    } else {
      assert s == [s[0]];
      OneRefused(fs, j, s[0], m, seen, rest);
    }
  }

  lemma NothingFits(f: Field)
    ensures !f.rule.Required? && !f.rule.Singular? ==> FitsSlot(f, [])
  {
  }

  lemma {:induction false} FieldsRefused(fs: seq<Field>, m: Slots, j: nat, seen: set<nat>)
    requires WellFormed(fs) && TypedSlots(fs, m) && EncodableSlots(fs, m)
    requires j <= |fs| && Marked(fs, fs, j, seen) && |EncFrom(fs, m, j)| < TWO63
    requires exists x :: j <= x < |fs| && !FitsSlot(fs[x], m[x])
    ensures DecFrom(fs, After(fs, fs, m, j), seen, EncFrom(fs, m, j)) == None
    decreases fs, 1, |fs| - j
  {
    SchemaSelf(fs);
    FindIs(fs, j);
    var rest := EncFrom(fs, m, j + 1);
    assert EncFrom(fs, m, j) == EncField(fs[j], m[j]) + rest;
    assert TypedSlot(fs[j], m[j]) && EncodableSlot(fs[j], m[j]) && WellFormedField(fs[j]);
    if FitsSlot(fs[j], m[j]) {
      var seen' := NextField(fs, fs, m, j, seen, rest);
      hide DecFrom, EncFrom, FitsSlot, After, Marked;
      FieldsRefused(fs, m, j + 1, seen');
    } else {
      assert m[j] != [] by { NothingFits(fs[j]); }
      UnionUnset(fs, fs, m, j, j);
      AfterKnown(fs, fs, m, j, j, seen);
      hide DecFrom, EncFrom, FitsSlot, After, Marked, Matches, TypedSlots, EncodableSlots;
      FieldRefused(fs, j, m[j], After(fs, fs, m, j), seen, rest);
    }
  }

  lemma {:induction false} MessageRefused(fs: seq<Field>, m: Slots)
    requires WellFormed(fs) && TypedSlots(fs, m) && EncodableSlots(fs, m) && !FitsSlots(fs, m)
    requires |EncMessage(fs, m)| < TWO63
    ensures Decode(fs, EncMessage(fs, m)) == None
    decreases fs, 2
  {
    assert After(fs, fs, m, 0) == Defaults(fs);
    hide DecFrom, After, WellFormed;
    FieldsRefused(fs, m, 0, {});
  }

  /**
   Exactly when a message survives: of all typed messages that the encoder
   writes without an error, those come back whole that leave room for every
   string's terminator and keep every length prefix within 32 bits; the others
   are refused.
   */
  lemma RoundTripIff(fs: seq<Field>, m: Slots)
    requires WellFormed(fs) && TypedSlots(fs, m) && EncodableSlots(fs, m) && |EncMessage(fs, m)| < TWO63
    ensures FitsSlots(fs, m) <==> Decode(fs, EncMessage(fs, m)) == Some(Read(m, []))
    ensures !FitsSlots(fs, m) <==> Decode(fs, EncMessage(fs, m)) == None
  {
    hide Decode, EncMessage;
    if FitsSlots(fs, m) { MessageRoundTrip(fs, m); } else { MessageRefused(fs, m); }
  }
}
