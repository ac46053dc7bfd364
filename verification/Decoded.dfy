/**
 Whatever the bytes, a struct that pb_decode reports as decoded is one its
 descriptor allows: no array or byte field over its room, no two members of a
 union set, every number within its C type. It can be encoded again.
 */
module Decoded {
  import opened Bytes
  import opened Wire
  import opened Schema

  predicate Sound(k: Kind, v: Value) { Typed(k, v) && Encodable(k, v) }

  predicate SoundSlot(f: Field, s: seq<Value>) {
    && (f.rule.Required? || f.rule.Singular? ==> |s| == 1)
    && (f.rule.Optional? || f.rule.Oneof? ==> |s| <= 1)
    && (f.rule.Repeated? ==> |s| <= f.rule.max)
    && (forall t :: 0 <= t < |s| ==> Sound(f.kind, s[t]))
  }

  predicate SoundSlots(fs: seq<Field>, m: Slots) {
    && |m| == |fs| && Exclusive(fs, m)
    && (forall i :: 0 <= i < |fs| ==> SoundSlot(fs[i], m[i]))
  }

  lemma SoundMsg(k: Kind, m: Slots)
    requires k.Submessage? && SoundSlots(k.fields, m)
    ensures Sound(k, Msg(m))
  {
    var fs := k.fields;
    forall i | 0 <= i < |fs| ensures TypedSlot(fs[i], m[i]) && EncodableSlot(fs[i], m[i]) {
      assert SoundSlot(fs[i], m[i]);
    }
  }

  lemma {:induction false} DefaultSound(k: Kind)
    requires WellFormedKind(k)
    ensures Sound(k, Default(k))
    decreases k
  {
    if k.Submessage? {
      DefaultsSound(k.fields);
      SoundMsg(k, Defaults(k.fields));
    }
  }

  lemma {:induction false} DefaultSlotSound(f: Field)
    requires WellFormedField(f)
    ensures SoundSlot(f, DefaultSlot(f))
    decreases f
  {
    DefaultSound(f.kind);
  }

  lemma {:induction false} DefaultsSound(fs: seq<Field>)
    requires WellFormed(fs)
    ensures SoundSlots(fs, Defaults(fs))
    decreases fs
  {
    forall i | 0 <= i < |fs| ensures SoundSlot(fs[i], Defaults(fs)[i]) {
      DefaultSlotSound(fs[i]);
    }
  }

  lemma {:induction false} CStringEnds(b: Bytes)
    ensures |CString(b)| <= |b| && 0 !in CString(b)
  {
    if b != [] { CStringEnds(b[1..]); }
  }

  lemma ScalarSound(k: Kind, input: Bytes)
    requires WellFormedKind(k) && !k.Submessage? && DecScalar(k, input).Some?
    ensures Sound(k, DecScalar(k, input).value.value)
  {
    hide Decode32, Decode64, Unzigzag, Signed;
    if k.Fixed32? || k.Fixed64? {
      hide FromLittleEndian, Pow2;
      FromLittleEndianBelow(input[..if k.Fixed32? then 4 else 8]);
      Pow2Words();
    } else if k.Text? {
      CStringEnds(TakeDelimited(input).value.value);
    }
  }

  lemma {:induction false} ValueSound(k: Kind, prev: Value, input: Bytes)
    requires WellFormedKind(k) && Sound(k, prev) && DecValue(k, prev, input).Some?
    ensures Sound(k, DecValue(k, prev, input).value.value)
    decreases |input|, 1
  {
    if k.Submessage? {
      var sub := TakeDelimited(input).value.value;
      FromMsg(k, prev.slots);
      hide TakeDelimited, Sound;
      MessageSound(k.fields, prev.slots, sub);
      SoundMsg(k, DecMessage(k.fields, prev.slots, sub).value.value);
    } else {
      ScalarSound(k, input);
    }
  }

  lemma FromMsg(k: Kind, m: Slots)
    requires k.Submessage? && Sound(k, Msg(m)) && WellFormedKind(k)
    ensures SoundSlots(k.fields, m)
  {
    var fs := k.fields;
    assert TypedSlots(fs, m) && EncodableSlots(fs, m) && WellFormed(fs);
    forall i | 0 <= i < |fs| ensures SoundSlot(fs[i], m[i]) {
      assert TypedSlot(fs[i], m[i]) && EncodableSlot(fs[i], m[i]) && WellFormedField(fs[i]);
      if fs[i].rule.Singular? && IsZero(fs[i].kind, m[i][0]) { ZeroSound(fs[i].kind, m[i][0]); }
    }
  }

  /** A zero value is encodable whatever the encoder skips. */
  lemma {:induction false} ZeroSound(k: Kind, v: Value)
    requires WellFormedKind(k) && Typed(k, v) && IsZero(k, v)
    ensures Sound(k, v)
    decreases k
  {
    if k.Submessage? {
      var fs := k.fields;
      forall i | 0 <= i < |fs| ensures EncodableSlot(fs[i], v.slots[i]) {
        assert IsZeroSlot(fs[i], v.slots[i]);
      }
    }
  }

  lemma {:induction false} PackedSound(k: Kind, max: nat, items: seq<Value>, payload: Bytes)
    requires WellFormedKind(k) && |items| <= max && forall t :: 0 <= t < |items| ==> Sound(k, items[t])
    requires DecPacked(k, max, items, payload).Some?
    ensures var r := DecPacked(k, max, items, payload).value;
            |r| <= max && forall t :: 0 <= t < |r| ==> Sound(k, r[t])
    decreases |payload|, 2
  {
    hide DecValue, Sound, WellFormedKind, Default;
    if payload != [] {
      DefaultSound(k);
      ValueSound(k, Default(k), payload);
      var r := DecValue(k, Default(k), payload).value;
      PackedSound(k, max, items + [r.value], r.rest);
    }
  }

  lemma {:induction false} SlotSound(f: Field, slot: seq<Value>, wireType: nat, input: Bytes)
    requires WellFormedKind(f.kind) && SoundSlot(f, slot) && DecSlot(f, slot, wireType, input).Some?
    ensures SoundSlot(f, DecSlot(f, slot, wireType, input).value.value)
    decreases |input|, 2
  {
    hide DecValue, DecPacked, Sound, TakeDelimited, WellFormedKind, Default;
    DefaultSound(f.kind);
    if f.rule.Repeated? && wireType == 2 && Packable(f.kind) {
      PackedSound(f.kind, f.rule.max, slot, TakeDelimited(input).value.value);
    } else {
      ValueSound(f.kind, if f.rule.Repeated? || slot == [] then Default(f.kind) else slot[0], input);
    }
  }

  lemma StoreSound(fs: seq<Field>, m: Slots, i: nat, slot: seq<Value>)
    requires SoundSlots(fs, m) && i < |fs| && SoundSlot(fs[i], slot)
    ensures SoundSlots(fs, Store(fs, m, i, slot))
  {
    hide Sound;
    var r := Store(fs, m, i, slot);
    forall j | 0 <= j < |fs| ensures SoundSlot(fs[j], r[j]) {
      assert SoundSlot(fs[j], m[j]);
    }
  }

  lemma {:induction false} LoopSound(fs: seq<Field>, m: Slots, seen: set<nat>, input: Bytes)
    requires WellFormed(fs) && SoundSlots(fs, m) && DecFrom(fs, m, seen, input).Some?
    ensures SoundSlots(fs, DecFrom(fs, m, seen, input).value.m)
    decreases |input|, 0
  {
    hide Decode32, DecSlot, Skip, Find, Store, Mark, SoundSlot, Exclusive, WellFormedKind;
    if input != [] && Decode32(input).value.value != 0 {
      var t := Decode32(input).value;
      var i := Find(fs, t.value / 8);
      if fs == [] && t.value / 8 == 0 {
        LoopSound(fs, m, seen, Decode32(t.rest).value.rest);
      } else if i.None? {
        LoopSound(fs, m, seen, Skip(t.value % 8, t.rest).value);
      } else {
        var f, r := fs[i.value], DecSlot(fs[i.value], m[i.value], t.value % 8, t.rest).value;
        assert WellFormedField(f) && SoundSlot(f, m[i.value]);
        SlotSound(f, m[i.value], t.value % 8, t.rest);
        StoreSound(fs, m, i.value, r.value);
        LoopSound(fs, Store(fs, m, i.value, r.value), Mark(fs, i.value, seen), r.rest);
      }
    }
  }

  lemma {:induction false} MessageSound(fs: seq<Field>, m: Slots, input: Bytes)
    requires WellFormed(fs) && SoundSlots(fs, m) && DecMessage(fs, m, input).Some?
    ensures SoundSlots(fs, DecMessage(fs, m, input).value.value)
    decreases |input|, 1
  {
    hide DecFrom, SoundSlot, Exclusive, WellFormed;
    LoopSound(fs, m, {}, input);
  }

  /** Every struct pb_decode returns is typed, within bounds and can be encoded. */
  lemma DecodedSound(fs: seq<Field>, input: Bytes)
    requires WellFormed(fs) && Decode(fs, input).Some?
    ensures TypedSlots(fs, Decode(fs, input).value.value) && EncodableSlots(fs, Decode(fs, input).value.value)
  {
    DefaultsSound(fs);
    MessageSound(fs, Defaults(fs), input);
    hide Decode, SoundSlots, WellFormed;
    SoundMsg(Submessage(fs), Decode(fs, input).value.value);
  }
}
