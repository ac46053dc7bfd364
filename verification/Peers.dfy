/**
 What pb_decode makes of what any peer may send: records in any order, repeated
 and interleaved, entries of one array packed in runs or one by one, submessages
 in pieces, unknown fields. The reference is the meaning of one record after the
 other: the last value of a field counts, entries are added, pieces of a
 submessage are merged, and setting one member of a union unsets the others.
 */
module Peers {
  import opened Bytes
  import opened Wire
  import opened Schema
  import opened RoundTrip

  /** A record, by the index of its field. */
  datatype Rec =
    | One(i: nat, v: Value)                  // a number or a byte string
    | Run(i: nat, items: seq<Value>)         // packed entries
    | Piece(i: nat, recs: seq<Rec>)          // a submessage, or some more of it
    | Unknown(tag: nat, kind: Kind, v: Value)

  /** The message so far, and the fields that have occurred. */
  datatype Got = Got(m: Slots, touched: set<nat>)

  // ------------------------------------------------------------ their meaning

  /** The fields of one union. */
  predicate SameUnion(fs: seq<Field>, i: nat, j: nat)
    requires i < |fs| && j < |fs|
  {
    i != j && fs[i].rule.Oneof? && fs[j].rule.Oneof? && fs[i].rule.group == fs[j].rule.group
  }

  /** Field i has these values now. */
  function Set(fs: seq<Field>, m: Slots, i: nat, slot: seq<Value>): (r: Slots)
    requires i < |fs| == |m|
    ensures |r| == |m|
  {
    seq(|m|, j requires 0 <= j < |m| => if j == i then slot else if SameUnion(fs, i, j) then [] else m[j])
  }

  /** More values for field i: the old ones stay in front in an array, otherwise the last one counts. */
  function Add(fs: seq<Field>, got: Got, i: nat, vs: seq<Value>): Option<Got>
    requires i < |fs| == |got.m|
  {
    if fs[i].rule.Repeated? then
      if |got.m[i]| + |vs| > fs[i].rule.max then None
      else Some(Got(Set(fs, got.m, i, got.m[i] + vs), got.touched + {i}))
    else if vs == [] then None
    else Some(Got(Set(fs, got.m, i, [vs[|vs| - 1]]), got.touched + {i}))
  }

  /** Every required field among the first 64 has occurred. */
  predicate Complete(fs: seq<Field>, touched: set<nat>) {
    forall i :: 0 <= i < |fs| && fs[i].rule.Required? && RequiredIndex(fs, i) < MAX_REQUIRED ==> i in touched
  }

  /** Arrays are within their room, and submessages have the slots of their fields. */
  predicate Shaped(fs: seq<Field>, m: Slots)
    decreases fs
  {
    |m| == |fs| && forall i :: 0 <= i < |fs| ==> ShapedSlot(fs[i], m[i])
  }

  predicate ShapedSlot(f: Field, slot: seq<Value>)
    decreases f, 1
  {
    (f.rule.Repeated? ==> |slot| <= f.rule.max) && forall v :: v in slot ==> ShapedValue(f, v)
  }

  predicate ShapedValue(f: Field, v: Value)
    decreases f, 0
  {
    f.kind.Submessage? ==> v.Msg? && Shaped(f.kind.fields, v.slots)
  }

  /** A record of the descriptor, short enough for its length prefix. */
  predicate Good(fs: seq<Field>, rec: Rec)
    decreases rec
  {
    match rec
    case One(i, v) => i < |fs| && !fs[i].kind.Submessage? && GoodItem(fs[i].kind, v)
    case Run(i, items) =>
      && i < |fs| && fs[i].rule.Repeated? && Packable(fs[i].kind)
      && (forall v :: v in items ==> GoodItem(fs[i].kind, v)) && |EncPacked(fs[i].kind, items, 0)| < TWO32
    case Piece(i, recs) =>
      && i < |fs| && fs[i].kind.Submessage? && (forall x :: 0 <= x < |recs| ==> Good(fs[i].kind.fields, recs[x]))
      && |EncRecs(fs[i].kind.fields, recs, 0)| < TWO32
    case Unknown(tag, kind, v) => 0 < tag < 0x2000_0000 && Find(fs, tag) == None && GoodItem(kind, v)
  }

  ghost predicate AllGood(fs: seq<Field>, recs: seq<Rec>) { forall x :: 0 <= x < |recs| ==> Good(fs, recs[x]) }

  function EncRec(fs: seq<Field>, rec: Rec): Bytes
    decreases rec, 0
  {
    match rec
    case One(i, v) => if i < |fs| then Tag(fs[i].tag, WireType(fs[i].kind)) + EncValue(fs[i].kind, v) else []
    case Run(i, items) => if i < |fs| then Tag(fs[i].tag, 2) + Delimited(EncPacked(fs[i].kind, items, 0)) else []
    case Piece(i, recs) =>
      if i < |fs| && fs[i].kind.Submessage? then Tag(fs[i].tag, 2) + Delimited(EncRecs(fs[i].kind.fields, recs, 0)) else []
    case Unknown(tag, kind, v) => Tag(tag, WireType(kind)) + EncValue(kind, v)
  }

  /** The records from x on. */
  function EncRecs(fs: seq<Field>, recs: seq<Rec>, x: nat): Bytes
    decreases recs, |recs| - x
  {
    if x < |recs| then EncRec(fs, recs[x]) + EncRecs(fs, recs, x + 1) else []
  }

  /** What a piece of a submessage goes on from. */
  function Start(f: Field, slot: seq<Value>): Slots
    requires f.kind.Submessage?
  {
    if f.rule.Repeated? || slot == [] || !slot[0].Msg? then Defaults(f.kind.fields) else slot[0].slots
  }

  /** One record more; None if the decoder has to refuse it. */
  function Take(fs: seq<Field>, got: Got, rec: Rec): (r: Option<Got>)
    requires |got.m| == |fs|
    ensures r.Some? ==> |r.value.m| == |fs|
    decreases rec, 0
  {
    match rec
    case One(i, v) => if i < |fs| then Add(fs, got, i, [v]) else None
    case Run(i, items) => if i < |fs| && fs[i].rule.Repeated? then Add(fs, got, i, items) else None
    case Piece(i, recs) =>
      if i < |fs| && fs[i].kind.Submessage? && |Start(fs[i], got.m[i])| == |fs[i].kind.fields| then
        var inner := TakeFrom(fs[i].kind.fields, Got(Start(fs[i], got.m[i]), {}), recs, 0);
        if inner.Some? && Complete(fs[i].kind.fields, inner.value.touched) then Add(fs, got, i, [Msg(inner.value.m)]) else None
      else None
    case Unknown(_, _, _) => Some(got)
  }

  function TakeFrom(fs: seq<Field>, got: Got, recs: seq<Rec>, x: nat): (r: Option<Got>)
    requires |got.m| == |fs|
    ensures r.Some? ==> |r.value.m| == |fs|
    decreases recs, |recs| - x
  {
    if x >= |recs| then Some(got)
    else
      var r := Take(fs, got, recs[x]);
      if r.None? then None else TakeFrom(fs, r.value, recs, x + 1)
  }

  // ------------------------------------------------------- what seen stands for

  /** The decoder's marks are the required indices of the fields that have occurred. */
  ghost predicate Tracks(fs: seq<Field>, seen: set<nat>, touched: set<nat>) {
    && (forall i :: 0 <= i < |fs| && fs[i].rule.Required? && RequiredIndex(fs, i) < MAX_REQUIRED ==>
          (RequiredIndex(fs, i) in seen <==> i in touched))
  }

  lemma NoneTracked(fs: seq<Field>)
    ensures Tracks(fs, {}, {})
  {
  }

  lemma {:induction false} RequiredGrows(fs: seq<Field>, i: nat, j: nat)
    requires i < j <= |fs|
    ensures RequiredIndex(fs, i) + (if fs[i].rule.Required? then 1 else 0) <= RequiredIndex(fs, j)
    decreases j
  {
    if i < j - 1 { RequiredGrows(fs, i, j - 1); }
  }

  lemma MarkTracks(fs: seq<Field>, seen: set<nat>, touched: set<nat>, i: nat)
    requires Tracks(fs, seen, touched) && i < |fs|
    ensures Tracks(fs, Mark(fs, i, seen), touched + {i})
  {
    forall j | 0 <= j < |fs| && fs[j].rule.Required? && j != i && fs[i].rule.Required? ensures RequiredIndex(fs, j) != RequiredIndex(fs, i) {
      if i < j { RequiredGrows(fs, i, j); } else { RequiredGrows(fs, j, i); }
    }
    hide RequiredIndex;
  }

  lemma SeenComplete(fs: seq<Field>, seen: set<nat>, touched: set<nat>)
    requires Tracks(fs, seen, touched)
    ensures AllSeen(fs, seen) <==> Complete(fs, touched)
  {
    hide RequiredIndex;
    if Complete(fs, touched) {
      forall r: nat | r < RequiredIndex(fs, |fs|) && r < MAX_REQUIRED ensures r in seen {
        var i := RequiredAt(fs, |fs|, r);
      }
    } else {
      var i :| 0 <= i < |fs| && fs[i].rule.Required? && RequiredIndex(fs, i) < MAX_REQUIRED && i !in touched;
      RequiredGrows(fs, i, |fs|);
    }
  }

  // -------------------------------------------------------------- one record

  lemma SetIsStore(fs: seq<Field>, m: Slots, i: nat, slot: seq<Value>)
    requires i < |fs| == |m|
    ensures Set(fs, m, i, slot) == Store(fs, m, i, slot)
  {
  }

  /** What DecSlot makes of a record's payload goes into the field, or ends the decoding. */
  lemma RecordDecides(fs: seq<Field>, m: Slots, seen: set<nat>, i: nat, wireType: nat, payload: Bytes, rest: Bytes, slot: Option<seq<Value>>)
    requires WellFormed(fs) && |m| == |fs| && i < |fs| && wireType < 8
    requires DecSlot(fs[i], m[i], wireType, payload + rest) == if slot.Some? then Some(Read(slot.value, rest)) else None
    ensures DecFrom(fs, m, seen, Tag(fs[i].tag, wireType) + payload + rest) ==
            if slot.Some? then DecFrom(fs, Set(fs, m, i, slot.value), Mark(fs, i, seen), rest) else None
  {
    assert WellFormedField(fs[i]);
    FindIs(fs, i);
    hide WellFormed, WellFormedField, DecSlot, Find, Tag, Store, Mark, Set, Decode32;
    if slot.Some? {
      KnownRecord(fs, m, seen, fs[i].tag, wireType, payload, rest, i, slot.value);
      SetIsStore(fs, m, i, slot.value);
    } else {
      TagRead(fs[i].tag, wireType, payload + rest);
      assert Tag(fs[i].tag, wireType) + payload + rest == Tag(fs[i].tag, wireType) + (payload + rest);
    }
  }

  /** The slot after one more value, None when an array is full. */
  function Slot(f: Field, slot: seq<Value>, v: Value): Option<seq<Value>> {
    if !f.rule.Repeated? then Some([v]) else if |slot| < f.rule.max then Some(slot + [v]) else None
  }

  lemma OneSlot(f: Field, slot: seq<Value>, v: Value, rest: Bytes)
    requires !f.kind.Submessage? && GoodItem(f.kind, v)
    ensures DecSlot(f, slot, WireType(f.kind), EncValue(f.kind, v) + rest) ==
            if Slot(f, slot, v).Some? then Some(Read(Slot(f, slot, v).value, rest)) else None
  {
    ScalarDecodes(f.kind, v, rest);
    hide DecScalar, EncValue, GoodItem, Default;
  }

  lemma {:induction false} RunSlot(k: Kind, max: nat, slot: seq<Value>, items: seq<Value>, t: nat)
    requires Packable(k) && t <= |items| && |slot| <= max && forall v :: v in items ==> GoodItem(k, v)
    ensures DecPacked(k, max, slot, EncPacked(k, items, t)) ==
            if |slot| + |items| - t <= max then Some(slot + items[t..]) else None
    decreases |items| - t
  {
    hide GoodItem, EncValue, DecScalar;
    if t == |items| {
      assert slot + items[t..] == slot;
    } else {
      var rest := EncPacked(k, items, t + 1);
      assert items[t] in items;
      assert DecScalar(k, EncValue(k, items[t]) + rest) == Some(Read(items[t], rest)) by { ItemReads(k, items[t], rest); }
      assert EncValue(k, items[t]) + rest != [] by { ItemWrites(k, items[t], rest); }
      if |slot| < max {
        RunSlot(k, max, slot + [items[t]], items, t + 1);
        assert slot + items[t..] == slot + [items[t]] + items[t + 1..];
      }
    }
  }

  lemma ItemReads(k: Kind, v: Value, rest: Bytes)
    requires !k.Submessage? && GoodItem(k, v)
    ensures DecScalar(k, EncValue(k, v) + rest) == Some(Read(v, rest))
  {
    ScalarDecodes(k, v, rest);
  }

  lemma ItemWrites(k: Kind, v: Value, rest: Bytes)
    requires !k.Submessage? && GoodItem(k, v)
    ensures EncValue(k, v) + rest != []
  {
    ScalarDecodes(k, v, []);
    hide EncValue;
    assert EncValue(k, v) + [] == EncValue(k, v);
    assert |EncValue(k, v)| > 0;
  }

  lemma {:induction false} DefaultsShaped(fs: seq<Field>)
    ensures Shaped(fs, Defaults(fs))
    decreases fs
  {
    forall i | 0 <= i < |fs| ensures ShapedSlot(fs[i], DefaultSlot(fs[i])) { DefaultShaped(fs[i]); }
  }

  lemma {:induction false} DefaultShaped(f: Field)
    ensures ShapedSlot(f, DefaultSlot(f))
    decreases f
  {
    if f.kind.Submessage? { DefaultsShaped(f.kind.fields); }
  }

  /** Values added in shape keep the struct in shape. */
  lemma AddShaped(fs: seq<Field>, got: Got, i: nat, vs: seq<Value>)
    requires Shaped(fs, got.m) && i < |fs| && forall v :: v in vs ==> ShapedValue(fs[i], v)
    ensures Add(fs, got, i, vs).Some? ==> Shaped(fs, Add(fs, got, i, vs).value.m)
  {
    hide ShapedValue;
    assert ShapedSlot(fs[i], got.m[i]);
    var r := Add(fs, got, i, vs);
    if r.Some? {
      forall j | 0 <= j < |fs| ensures ShapedSlot(fs[j], r.value.m[j]) { assert ShapedSlot(fs[j], got.m[j]); }
    }
  }

  lemma OneDecodes(fs: seq<Field>, got: Got, seen: set<nat>, i: nat, v: Value, rest: Bytes)
    requires WellFormed(fs) && Shaped(fs, got.m) && Good(fs, One(i, v))
    ensures var r := Add(fs, got, i, [v]);
            DecFrom(fs, got.m, seen, EncRec(fs, One(i, v)) + rest) == if r.Some? then DecFrom(fs, r.value.m, Mark(fs, i, seen), rest) else None
  {
    var f, slot := fs[i], got.m[i];
    OneSlot(f, slot, v, rest);
    hide WellFormed, Shaped, GoodItem, DecFrom, DecSlot, EncValue, Tag, Mark, Set;
    RecordDecides(fs, got.m, seen, i, WireType(f.kind), EncValue(f.kind, v), rest, Slot(f, slot, v));
  }

  lemma RunDecodes(fs: seq<Field>, got: Got, seen: set<nat>, i: nat, items: seq<Value>, rest: Bytes)
    requires WellFormed(fs) && Shaped(fs, got.m) && Good(fs, Run(i, items))
    ensures var r := Add(fs, got, i, items);
            DecFrom(fs, got.m, seen, EncRec(fs, Run(i, items)) + rest) == if r.Some? then DecFrom(fs, r.value.m, Mark(fs, i, seen), rest) else None
  {
    var f, slot := fs[i], got.m[i];
    assert ShapedSlot(f, slot);
    var p := EncPacked(f.kind, items, 0);
    RunSlot(f.kind, f.rule.max, slot, items, 0);
    DelimitedTaken(p, rest);
    assert items[0..] == items;
    var r := if |slot| + |items| <= f.rule.max then Some(slot + items) else None;
    hide WellFormed, Shaped, GoodItem, DecFrom, DecPacked, EncPacked, Tag, Mark, Set, TakeDelimited, Delimited;
    assert DecSlot(f, slot, 2, Delimited(p) + rest) == if r.Some? then Some(Read(r.value, rest)) else None;
    RecordDecides(fs, got.m, seen, i, 2, Delimited(p), rest, r);
  }

  lemma UnknownDecodes(fs: seq<Field>, m: Slots, seen: set<nat>, tag: nat, kind: Kind, v: Value, rest: Bytes)
    requires |m| == |fs| && Good(fs, Unknown(tag, kind, v))
    ensures DecFrom(fs, m, seen, EncRec(fs, Unknown(tag, kind, v)) + rest) == DecFrom(fs, m, seen, rest)
  {
    ValueSkips(kind, v, rest);
    hide DecFrom, Find, Skip, EncValue, Tag, GoodItem;
    UnknownRecord(fs, m, seen, tag, WireType(kind), EncValue(kind, v), rest);
  }

  /** A piece of a submessage whose records come to `inner`, or are refused. */
  lemma PieceDecodes(fs: seq<Field>, got: Got, seen: set<nat>, i: nat, recs: seq<Rec>, inner: Option<Slots>, rest: Bytes)
    requires WellFormed(fs) && Shaped(fs, got.m) && Good(fs, Piece(i, recs))
    requires DecMessage(fs[i].kind.fields, Start(fs[i], got.m[i]), EncRecs(fs[i].kind.fields, recs, 0)) ==
             if inner.Some? then Some(Read(inner.value, [])) else None
    ensures var r := if inner.Some? then Add(fs, got, i, [Msg(inner.value)]) else None;
            DecFrom(fs, got.m, seen, EncRec(fs, Piece(i, recs)) + rest) == if r.Some? then DecFrom(fs, r.value.m, Mark(fs, i, seen), rest) else None
  {
    var f, slot, b := fs[i], got.m[i], EncRecs(fs[i].kind.fields, recs, 0);
    assert ShapedSlot(f, slot);
    PieceSlot(f, slot, b, inner, rest);
    hide WellFormed, Shaped, DecFrom, DecSlot, DecMessage, Tag, Mark, Set, Delimited, EncRecs, ShapedValue;
    RecordDecides(fs, got.m, seen, i, 2, Delimited(b), rest, if inner.Some? then Slot(f, slot, Msg(inner.value)) else None);
  }

  lemma PieceSlot(f: Field, slot: seq<Value>, b: Bytes, inner: Option<Slots>, rest: Bytes)
    requires f.kind.Submessage? && |b| < TWO32 && ShapedSlot(f, slot)
    requires DecMessage(f.kind.fields, Start(f, slot), b) == if inner.Some? then Some(Read(inner.value, [])) else None
    ensures var r := if inner.Some? then Slot(f, slot, Msg(inner.value)) else None;
            DecSlot(f, slot, 2, Delimited(b) + rest) == if r.Some? then Some(Read(r.value, rest)) else None
  {
    DelimitedTaken(b, rest);
    assert slot != [] ==> slot[0] in slot && ShapedValue(f, slot[0]);
    hide DecMessage, TakeDelimited, Delimited, Defaults, Shaped;
  }

  /** Reading `input` into `m` comes to `r`, refused if None, and goes on with `rest`. */
  ghost predicate Reads(fs: seq<Field>, m: Slots, seen: set<nat>, input: Bytes, r: Option<Got>, seen': set<nat>, rest: Bytes)
    requires |m| == |fs| && (r.Some? ==> |r.value.m| == |fs|)
  {
    && (r.None? ==> DecFrom(fs, m, seen, input) == None)
    && (r.Some? ==> Tracks(fs, seen', r.value.touched) && Shaped(fs, r.value.m) && DecFrom(fs, m, seen, input) == DecFrom(fs, r.value.m, seen', rest))
  }

  lemma ReadsOn(fs: seq<Field>, m: Slots, seen: set<nat>, input: Bytes, r: Got, seen': set<nat>, mid: Bytes, q: Option<Got>, seen'': set<nat>, rest: Bytes)
    requires |m| == |fs| == |r.m| && (q.Some? ==> |q.value.m| == |fs|)
    requires Reads(fs, m, seen, input, Some(r), seen', mid) && Reads(fs, r.m, seen', mid, q, seen'', rest)
    ensures Reads(fs, m, seen, input, q, seen'', rest)
  {
    hide DecFrom;
  }

  lemma ReadsNone(fs: seq<Field>, m: Slots, seen: set<nat>, input: Bytes, seen': set<nat>, mid: Bytes, seen'': set<nat>, rest: Bytes)
    requires |m| == |fs| && Reads(fs, m, seen, input, None, seen', mid)
    ensures Reads(fs, m, seen, input, None, seen'', rest)
  {
    hide DecFrom;
  }

  lemma ReadsNothing(fs: seq<Field>, got: Got, seen: set<nat>, rest: Bytes)
    requires Shaped(fs, got.m) && Tracks(fs, seen, got.touched)
    ensures Reads(fs, got.m, seen, rest, Some(got), seen, rest)
  {
    hide DecFrom;
  }

  /** The meaning of a record is what the decoder makes of it. */
  lemma {:induction false} RecDecodes(fs: seq<Field>, got: Got, seen: set<nat>, rec: Rec, rest: Bytes) returns (seen': set<nat>)
    requires WellFormed(fs) && Shaped(fs, got.m) && Good(fs, rec) && Tracks(fs, seen, got.touched)
    ensures Reads(fs, got.m, seen, EncRec(fs, rec) + rest, Take(fs, got, rec), seen', rest)
    decreases rec, 0
  {
    seen' := seen;
    match rec {
      case One(i, v) =>
        seen' := Mark(fs, i, seen);
        OneDecodes(fs, got, seen, i, v, rest);
        AddShaped(fs, got, i, [v]);
        MarkTracks(fs, seen, got.touched, i);
        hide WellFormed, Shaped, GoodItem, DecFrom, EncRec, Set, Tracks, Mark;
      case Run(i, items) =>
        seen' := Mark(fs, i, seen);
        RunDecodes(fs, got, seen, i, items, rest);
        AddShaped(fs, got, i, items);
        MarkTracks(fs, seen, got.touched, i);
        hide WellFormed, Shaped, GoodItem, DecFrom, EncRec, Set, Tracks, Mark;
      case Piece(i, recs) =>
        seen' := PieceMeans(fs, got, seen, i, recs, rest);
      case Unknown(tag, kind, v) =>
        UnknownDecodes(fs, got.m, seen, tag, kind, v, rest);
    }
  }

  lemma {:induction false} PieceMeans(fs: seq<Field>, got: Got, seen: set<nat>, i: nat, recs: seq<Rec>, rest: Bytes) returns (seen': set<nat>)
    requires WellFormed(fs) && Shaped(fs, got.m) && Good(fs, Piece(i, recs)) && Tracks(fs, seen, got.touched)
    ensures Reads(fs, got.m, seen, EncRec(fs, Piece(i, recs)) + rest, Take(fs, got, Piece(i, recs)), seen', rest)
    decreases recs, |recs| + 1
  {
    var f, slot := fs[i], got.m[i];
    var inside := f.kind.fields;
    assert WellFormedField(f) && ShapedSlot(f, slot);
    StartShaped(f, slot);
    var from := Got(Start(f, slot), {});
    assert WellFormedKind(f.kind) && WellFormed(inside);
    NoneTracked(inside);
    assert AllGood(inside, recs);
    var inner := TakeFrom(inside, from, recs, 0);
    var marks := RecsDecode(inside, from, {}, recs, 0, []);
    var b := EncRecs(inside, recs, 0);
    assert b + [] == b;
    var result := if inner.Some? && Complete(inside, inner.value.touched) then Some(inner.value.m) else None;
    if inner.Some? { SeenComplete(inside, marks, inner.value.touched); }
    assert DecMessage(inside, from.m, b) == if result.Some? then Some(Read(result.value, [])) else None;
    hide WellFormed, DecFrom, EncRec, EncRecs, Set, Tracks, Mark, DecMessage, Complete, TakeFrom;
    PieceDecodes(fs, got, seen, i, recs, result, rest);
    seen' := Mark(fs, i, seen);
    MarkTracks(fs, seen, got.touched, i);
    if result.Some? { AddShaped(fs, got, i, [Msg(result.value)]); }
  }

  lemma StartShaped(f: Field, slot: seq<Value>)
    requires f.kind.Submessage? && ShapedSlot(f, slot)
    ensures Shaped(f.kind.fields, Start(f, slot))
  {
    DefaultsShaped(f.kind.fields);
    assert slot != [] ==> slot[0] in slot && ShapedValue(f, slot[0]);
  }

  lemma {:induction false} RecsDecode(fs: seq<Field>, got: Got, seen: set<nat>, recs: seq<Rec>, x: nat, rest: Bytes) returns (seen': set<nat>)
    requires WellFormed(fs) && Shaped(fs, got.m) && Tracks(fs, seen, got.touched) && x <= |recs|
    requires AllGood(fs, recs)
    ensures Reads(fs, got.m, seen, EncRecs(fs, recs, x) + rest, TakeFrom(fs, got, recs, x), seen', rest)
    decreases recs, |recs| - x
  {
    assert |got.m| == |fs|;
    seen' := seen;
    RecsUnfold(fs, got, recs, x, rest);
    assert x < |recs| ==> Good(fs, recs[x]);
    ReadsNothing(fs, got, seen, rest);
    if x < |recs| {
      var mid := EncRecs(fs, recs, x + 1) + rest;
      var r := Take(fs, got, recs[x]);
      var next := RecDecodes(fs, got, seen, recs[x], mid);
      seen' := next;
      if r.Some? {
        assert Shaped(fs, r.value.m) && Tracks(fs, next, r.value.touched) by { ReadsShape(fs, got.m, seen, EncRec(fs, recs[x]) + mid, r.value, next, mid); }
        hide DecFrom, Good, AllGood, WellFormed, Shaped, Tracks, Take, EncRec, EncRecs, TakeFrom, Reads;
        seen' := RecsDecode(fs, r.value, next, recs, x + 1, rest);
        ReadsOn(fs, got.m, seen, EncRecs(fs, recs, x) + rest, r.value, next, mid, TakeFrom(fs, r.value, recs, x + 1), seen', rest);
      } else {
        hide DecFrom, Good, AllGood, WellFormed, Shaped, Tracks, Take, EncRec, EncRecs, TakeFrom, Reads;
        ReadsNone(fs, got.m, seen, EncRecs(fs, recs, x) + rest, next, mid, seen', rest);
      }
    }
  }

  lemma ReadsShape(fs: seq<Field>, m: Slots, seen: set<nat>, input: Bytes, r: Got, seen': set<nat>, rest: Bytes)
    requires |m| == |fs| == |r.m| && Reads(fs, m, seen, input, Some(r), seen', rest)
    ensures Shaped(fs, r.m) && Tracks(fs, seen', r.touched)
  {
  }

  lemma RecsUnfold(fs: seq<Field>, got: Got, recs: seq<Rec>, x: nat, rest: Bytes)
    requires |got.m| == |fs| && x <= |recs|
    ensures x == |recs| ==> EncRecs(fs, recs, x) + rest == rest && TakeFrom(fs, got, recs, x) == Some(got)
    ensures x < |recs| ==>
              && EncRecs(fs, recs, x) + rest == EncRec(fs, recs[x]) + (EncRecs(fs, recs, x + 1) + rest)
              && var r := Take(fs, got, recs[x]);
                 TakeFrom(fs, got, recs, x) == if r.None? then None else TakeFrom(fs, r.value, recs, x + 1)
  {
    hide Take, EncRec;
  }

  /**
   Decoding what any peer sends, from a struct in its defaults: the message that
   its records mean one after the other, refused exactly when one of them has to
   be or a required field among the first 64 does not occur.
   */
  lemma RecordsDecode(fs: seq<Field>, recs: seq<Rec>)
    requires WellFormed(fs) && AllGood(fs, recs)
    ensures var r := TakeFrom(fs, Got(Defaults(fs), {}), recs, 0);
            Decode(fs, EncRecs(fs, recs, 0)) ==
            if r.Some? && Complete(fs, r.value.touched) then Some(Read(r.value.m, [])) else None
  {
    DefaultsShaped(fs);
    var got, b := Got(Defaults(fs), {}), EncRecs(fs, recs, 0);
    var seen := RecsDecode(fs, got, {}, recs, 0, []);
    assert b + [] == b;
    var r := TakeFrom(fs, got, recs, 0);
    if r.Some? { SeenComplete(fs, seen, r.value.touched); }
    hide EncRecs, TakeFrom, Complete, AllSeen, Shaped, Tracks;
  }

  // ------------------------------------------------------------- consequences

  lemma RecordsUnfold(fs: seq<Field>, i: nat, s: seq<Value>, t: nat, rest: Bytes)
    requires i < |fs| && t <= |s|
    ensures EncRecords(fs[i], s, t) + rest ==
            if t < |s| then EncRec(fs, One(i, s[t])) + (EncRecords(fs[i], s, t + 1) + rest) else rest
  {
    hide Tag, EncValue;
  }

  lemma OneEntry(fs: seq<Field>, m: Slots, seen: set<nat>, i: nat, v: Value, rest: Bytes)
    requires WellFormed(fs) && Shaped(fs, m) && i < |fs| && fs[i].rule.Repeated? && !fs[i].kind.Submessage?
    requires |m[i]| < fs[i].rule.max && GoodItem(fs[i].kind, v)
    ensures Shaped(fs, m[i := m[i] + [v]])
    ensures DecFrom(fs, m, seen, EncRec(fs, One(i, v)) + rest) == DecFrom(fs, m[i := m[i] + [v]], seen, rest)
  {
    OneDecodes(fs, Got(m, {}), seen, i, v, rest);
    AddShaped(fs, Got(m, {}), i, [v]);
    assert Set(fs, m, i, m[i] + [v]) == m[i := m[i] + [v]];
    hide DecFrom, EncRec, WellFormed, Shaped, GoodItem, Set;
  }

  /** Entries sent one by one are added to those there are, packable or not. */
  lemma {:induction false} UnpackedDecodes(fs: seq<Field>, m: Slots, seen: set<nat>, i: nat, s: seq<Value>, t: nat, rest: Bytes)
    requires WellFormed(fs) && Shaped(fs, m) && i < |fs| && fs[i].rule.Repeated? && !fs[i].kind.Submessage?
    requires t <= |s| && |m[i]| + |s| - t <= fs[i].rule.max && forall v :: v in s ==> GoodItem(fs[i].kind, v)
    ensures DecFrom(fs, m, seen, EncRecords(fs[i], s, t) + rest) == DecFrom(fs, m[i := m[i] + s[t..]], seen, rest)
    decreases |s| - t
  {
    RecordsUnfold(fs, i, s, t, rest);
    Grown(m, i, s, t);
    if t < |s| {
      assert s[t] in s;
      hide *;
      OneEntry(fs, m, seen, i, s[t], EncRecords(fs[i], s, t + 1) + rest);
      UnpackedDecodes(fs, m[i := m[i] + [s[t]]], seen, i, s, t + 1, rest);
    } else {
      hide *;
    }
  }

  lemma Grown(m: Slots, i: nat, s: seq<Value>, t: nat)
    requires i < |m| && t <= |s|
    ensures t == |s| ==> m[i := m[i] + s[t..]] == m
    ensures t < |s| ==> var m' := m[i := m[i] + [s[t]]]; m'[i := m'[i] + s[t + 1..]] == m[i := m[i] + s[t..]]
  {
    if t == |s| {
      assert m[i] + s[t..] == m[i];
    } else {
      assert m[i] + [s[t]] + s[t + 1..] == m[i] + s[t..];
    }
  }

  /** And entries sent in a packed run as well, so that both forms may be mixed. */
  lemma PackedRunDecodes(fs: seq<Field>, m: Slots, seen: set<nat>, i: nat, s: seq<Value>, rest: Bytes)
    requires WellFormed(fs) && Shaped(fs, m) && Good(fs, Run(i, s)) && |m[i]| + |s| <= fs[i].rule.max
    ensures DecFrom(fs, m, seen, Tag(fs[i].tag, 2) + Delimited(EncPacked(fs[i].kind, s, 0)) + rest) == DecFrom(fs, m[i := m[i] + s], seen, rest)
  {
    RunDecodes(fs, Got(m, {}), seen, i, s, rest);
    assert Set(fs, m, i, m[i] + s) == m[i := m[i] + s];
    hide DecFrom, Set, WellFormed, Shaped, EncPacked, Tag, Delimited;
  }

  /** The record is one of field i. */
  predicate Of(rec: Rec, i: nat) { (rec.One? || rec.Run? || rec.Piece?) && rec.i == i }

  lemma {:induction false} OnlyTouched(fs: seq<Field>, got: Got, recs: seq<Rec>, x: nat, i: nat)
    requires |got.m| == |fs| && x <= |recs| && TakeFrom(fs, got, recs, x).Some? && i !in got.touched
    requires forall y :: x <= y < |recs| ==> !Of(recs[y], i)
    ensures i !in TakeFrom(fs, got, recs, x).value.touched
    decreases |recs| - x
  {
    if x < |recs| {
      var r := Take(fs, got, recs[x]);
      assert i !in r.value.touched;
      OnlyTouched(fs, r.value, recs, x + 1, i);
    }
  }

  /** Bytes without a record of one of the first 64 required fields are refused. */
  lemma MissingRefused(fs: seq<Field>, recs: seq<Rec>, i: nat)
    requires WellFormed(fs) && AllGood(fs, recs)
    requires i < |fs| && fs[i].rule.Required? && RequiredIndex(fs, i) < MAX_REQUIRED && forall x :: 0 <= x < |recs| ==> !Of(recs[x], i)
    ensures Decode(fs, EncRecs(fs, recs, 0)) == None
  {
    RecordsDecode(fs, recs);
    var r := TakeFrom(fs, Got(Defaults(fs), {}), recs, 0);
    if r.Some? { OnlyTouched(fs, Got(Defaults(fs), {}), recs, 0, i); }
  }

  lemma {:induction false} TakeMore(fs: seq<Field>, a: Got, b: Got, recs: seq<Rec>, x: nat)
    requires |a.m| == |fs| && b.m == a.m && a.touched <= b.touched && x <= |recs|
    ensures var r, r' := TakeFrom(fs, a, recs, x), TakeFrom(fs, b, recs, x);
            (r.Some? <==> r'.Some?) && (r.Some? ==> r'.value.m == r.value.m && r.value.touched <= r'.value.touched)
    decreases |recs| - x
  {
    if x < |recs| {
      var r, r' := Take(fs, a, recs[x]), Take(fs, b, recs[x]);
      assert (r.Some? <==> r'.Some?) && (r.Some? ==> r'.value.m == r.value.m && r.value.touched <= r'.value.touched);
      if r.Some? { TakeMore(fs, r.value, r'.value, recs, x + 1); }
    }
  }

  lemma {:induction false} TakeJoined(fs: seq<Field>, got: Got, a: seq<Rec>, b: seq<Rec>, x: nat)
    requires |got.m| == |fs| && x <= |a|
    ensures var r := TakeFrom(fs, got, a, x);
            TakeFrom(fs, got, a + b, x) == if r.None? then None else TakeFrom(fs, r.value, a + b, |a|)
    decreases |a| - x
  {
    if x < |a| {
      assert (a + b)[x] == a[x];
      var r := Take(fs, got, a[x]);
      if r.Some? { TakeJoined(fs, r.value, a, b, x + 1); }
    }
  }

  lemma {:induction false} TakeTail(fs: seq<Field>, got: Got, a: seq<Rec>, b: seq<Rec>, x: nat)
    requires |got.m| == |fs| && x <= |b|
    ensures TakeFrom(fs, got, a + b, |a| + x) == TakeFrom(fs, got, b, x)
    decreases |b| - x
  {
    if x < |b| {
      assert (a + b)[|a| + x] == b[x];
      var r := Take(fs, got, b[x]);
      if r.Some? { TakeTail(fs, r.value, a, b, x + 1); }
    }
  }

  /** A submessage that occurs twice is merged: its pieces mean what their records would in one piece. */
  lemma PiecesMerge(fs: seq<Field>, got: Got, i: nat, a: seq<Rec>, b: seq<Rec>)
    requires |got.m| == |fs| && i < |fs| && !fs[i].rule.Repeated?
    requires TakeFrom(fs, got, [Piece(i, a), Piece(i, b)], 0).Some?
    ensures TakeFrom(fs, got, [Piece(i, a + b)], 0) == TakeFrom(fs, got, [Piece(i, a), Piece(i, b)], 0)
  {
    var inside, start, two := fs[i].kind.fields, Start(fs[i], got.m[i]), [Piece(i, a), Piece(i, b)];
    var first := TakeFrom(inside, Got(start, {}), a, 0);
    var half := Take(fs, got, two[0]);
    assert half.Some? && first.Some? && half.value.m[i] == [Msg(first.value.m)];
    var second := TakeFrom(inside, Got(first.value.m, {}), b, 0);
    assert Take(fs, half.value, two[1]).Some? && second.Some?;
    TakeJoined(inside, Got(start, {}), a, b, 0);
    TakeTail(inside, first.value, a, b, 0);
    TakeMore(inside, Got(first.value.m, {}), first.value, b, 0);
    var whole := TakeFrom(inside, Got(start, {}), a + b, 0);
    assert whole.Some? && whole.value.m == second.value.m && second.value.touched <= whole.value.touched;
    assert Set(fs, half.value.m, i, [Msg(second.value.m)]) == Set(fs, got.m, i, [Msg(second.value.m)]);
    assert half.value.touched + {i} == got.touched + {i};
    TwoTaken(fs, got, two[0], two[1]);
    assert Take(fs, got, Piece(i, a + b)) == Take(fs, half.value, two[1]);
  }

  lemma TwoTaken(fs: seq<Field>, got: Got, a: Rec, b: Rec)
    requires |got.m| == |fs|
    ensures TakeFrom(fs, got, [a], 0) == Take(fs, got, a)
    ensures var r := Take(fs, got, a);
            TakeFrom(fs, got, [a, b], 0) == if r.None? then None else Take(fs, r.value, b)
  {
    hide Take;
    var r := Take(fs, got, a);
    if r.Some? {
      var q := Take(fs, r.value, b);
      if q.Some? { assert TakeFrom(fs, q.value, [a, b], 2) == q; }
      assert TakeFrom(fs, r.value, [a, b], 1) == q;
    }
  }

  // ------------------------------------------------------------- known bytes

  const ANYWHERE := Layout(0, 0, 0, 0)

  /** Some of the bytes are given in the encoding chapter of the Protocol Buffers documentation. */
  lemma KnownRecords()
    ensures EncField(Field(1, Required, Varint(4), ANYWHERE), [Num(150)]) == [0x08, 0x96, 0x01]
    ensures EncField(Field(2, Required, Text(8), ANYWHERE), [Str([0x74, 0x65, 0x73, 0x74, 0x69, 0x6e, 0x67])])
            == [0x12, 0x07, 0x74, 0x65, 0x73, 0x74, 0x69, 0x6e, 0x67]
    ensures EncField(Field(5, Required, Fixed32, ANYWHERE), [Num(0x0102_0304)]) == [0x2d, 0x04, 0x03, 0x02, 0x01]
    ensures EncField(Field(1, Required, Fixed64, ANYWHERE), [Num(0x0102_0304)]) == [0x09, 0x04, 0x03, 0x02, 0x01, 0, 0, 0, 0]
  {
    KnownVarints();
    KnownWords();
    hide Wire.Varint, LittleEndian;
  }

  lemma KnownPacked()
    ensures EncField(Field(4, Repeated(3), Varint(4), ANYWHERE), [Num(3), Num(270)]) == [0x22, 0x03, 0x03, 0x8e, 0x02]
  {
    KnownVarints();
    hide Wire.Varint, LittleEndian;
    var many := Field(4, Repeated(3), Varint(4), ANYWHERE);
    assert EncPacked(many.kind, [Num(3), Num(270)], 2) == [];
    assert EncPacked(many.kind, [Num(3), Num(270)], 1) == [0x8e, 0x02];
    assert EncPacked(many.kind, [Num(3), Num(270)], 0) == [0x03, 0x8e, 0x02];
  }

  /** Fields are written in the order of their descriptors. */
  lemma FieldsInOrder(fs: seq<Field>, m: Slots, i: nat)
    requires i <= |fs| == |m|
    ensures EncMessage(fs, m) == EncMessage(fs[..i], m[..i]) + EncMessage(fs[i..], m[i..])
    ensures |fs| == 1 ==> EncMessage(fs, m) == EncField(fs[0], m[0])
  {
    PrefixFields(fs, m, i, 0);
    SuffixFields(fs, m, i, 0);
    OneField(fs, m);
  }

  lemma OneField(fs: seq<Field>, m: Slots)
    requires |fs| == |m|
    ensures |fs| == 1 ==> EncMessage(fs, m) == EncField(fs[0], m[0])
  {
    hide EncField;
    if |fs| == 1 { assert EncFrom(fs, m, 1) == []; }
  }

  lemma {:induction false} PrefixFields(fs: seq<Field>, m: Slots, i: nat, k: nat)
    requires k <= i <= |fs| == |m|
    ensures EncFrom(fs, m, k) == EncFrom(fs[..i], m[..i], k) + EncFrom(fs, m, i)
    decreases i - k
  {
    hide EncField;
    if k < i { PrefixFields(fs, m, i, k + 1); }
  }

  lemma {:induction false} SuffixFields(fs: seq<Field>, m: Slots, i: nat, k: nat)
    requires i + k <= |fs| == |m|
    ensures EncFrom(fs, m, i + k) == EncFrom(fs[i..], m[i..], k)
    decreases |fs| - i - k
  {
    hide EncField;
    if i + k < |fs| { SuffixFields(fs, m, i, k + 1); }
  }

  lemma KnownMessage()
    ensures var inner := [Field(1, Required, Varint(4), ANYWHERE)];
            EncMessage([Field(4, Required, UVarint(4), ANYWHERE), Field(3, Optional, Submessage(inner), ANYWHERE)],
                       [[Num(7)], [Msg([[Num(150)]])]])
            == [0x20, 0x07, 0x1a, 0x03, 0x08, 0x96, 0x01]
  {
    KnownVarints();
    hide Wire.Varint, LittleEndian, IsZero;
    var inner := [Field(1, Required, Varint(4), ANYWHERE)];
    OneField(inner, [[Num(150)]]);
    var first, second := Field(4, Required, UVarint(4), ANYWHERE), Field(3, Optional, Submessage(inner), ANYWHERE);
    var m := [[Num(7)], [Msg([[Num(150)]])]];
    FieldsInOrder([first, second], m, 1);
    OneRecord(first, Num(7));
    OneRecord(inner[0], Num(150));
    OneRecord(second, Msg([[Num(150)]]));
    hide EncField, EncMessage;
    assert [first, second][..1] == [first] && m[..1] == [m[0]] && [first, second][1..] == [second] && m[1..] == [m[1]];
    OneField([first], [m[0]]);
    OneField([second], [m[1]]);
  }

  lemma OneRecord(f: Field, v: Value)
    requires !f.rule.Singular? && !f.rule.Repeated?
    ensures EncField(f, [v]) == Tag(f.tag, WireType(f.kind)) + EncValue(f.kind, v)
  {
    hide EncValue;
    assert EncRecords(f, [v], 1) == [];
  }

  lemma KnownVarints()
    ensures forall n: nat :: n < 128 ==> Wire.Varint(n) == [n]
    ensures Wire.Varint(150) == [0x96, 0x01] && Wire.Varint(270) == [0x8e, 0x02]
  {
    assert Wire.Varint(1) == [1] && Wire.Varint(2) == [2];
  }

  lemma KnownWords()
    ensures LittleEndian(0x0102_0304, 4) == [4, 3, 2, 1] && LittleEndian(0x0102_0304, 8) == [4, 3, 2, 1, 0, 0, 0, 0]
  {
    hide LittleEndian;
    Word(0x0102_0304, 0);
    Word(0x0102_0304, 4);
    LowBytes(0, 0);
    LowBytes(0, 1);
    LowBytes(0, 2);
    LowBytes(0, 3);
    LowBytes(0, 4);
  }

  /** The first four bytes, and what follows them. */
  lemma Word(v: nat, more: nat)
    requires v == 0x0102_0304
    ensures LittleEndian(v, more + 4) == [4, 3, 2, 1] + LittleEndian(0, more)
  {
    hide LittleEndian;
    LowBytes(v, more + 4);
    LowBytes(0x01_0203, more + 3);
    LowBytes(0x0102, more + 2);
    LowBytes(1, more + 1);
  }

  lemma LowBytes(v: nat, n: nat)
    ensures LittleEndian(v, n) == if n == 0 then [] else [v % 256] + LittleEndian(v / 256, n - 1)
  {
  }

  lemma KnownZigzag()
    ensures Zigzag(0) == 0 && Zigzag(-1) == 1 && Zigzag(1) == 2 && Zigzag(-2) == 3
  {
  }
}
