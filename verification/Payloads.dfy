/**
 What the decoder makes of a payload that need not fit its field: every 64-bit
 number, every byte string, and whatever is cut off before its end.
 */
module Payloads {
  import opened Bytes
  import opened Wire
  import opened Schema
  import opened RoundTrip
  import opened Peers

  // ------------------------------------------------------------------ numbers

  /** The number that the word `u` stands for: an int field of at most four bytes has only the low half of it. */
  ghost predicate Means(k: Kind, u: nat, n: int) {
    match k
    case UVarint(_) => n == u
    case SVarint(_) => -TWO63 <= n < TWO63 && Zigzag(n) == u
    case Varint(size) =>
      if size == 8 then SignedFits(n, 8) && (n - u) % TWO64 == 0 else SignedFits(n, 4) && (n - u) % TWO32 == 0
    case _ => false
  }

  predicate InField(k: Kind, n: int)
    requires k.Varint? || k.UVarint? || k.SVarint?
  {
    if k.UVarint? then UnsignedFits(n, k.size) else SignedFits(n, k.size)
  }

  lemma MeansOne(k: Kind, u: nat) returns (n: int)
    requires u < TWO64 && (k.Varint? || k.UVarint? || k.SVarint?)
    ensures Means(k, u, n)
  {
    if k.UVarint? {
      n := u;
    } else if k.SVarint? {
      n := Unzigzag(u);
      ZigzagInverse(0, u);
    } else if k.size == 8 {
      n := Signed(u, TWO64);
    } else {
      n := Signed(u % TWO32, TWO32);
    }
  }

  lemma LowHalf(u: nat, n: int)
    requires SignedFits(n, 4) && (n - u) % TWO32 == 0
    ensures Signed(u % TWO32, TWO32) == n
  {
    var q := (n - u) / TWO32;
    assert n == u + TWO32 * q;
    assert u == TWO32 * (u / TWO32) + u % TWO32;
    assert n - u % TWO32 == TWO32 * (q + u / TWO32);
  }

  lemma WholeWord(u: nat, n: int)
    requires u < TWO64 && SignedFits(n, 8) && (n - u) % TWO64 == 0
    ensures Signed(u, TWO64) == n
  {
    assert n - u == TWO64 * ((n - u) / TWO64);
  }

  lemma NumberCast(k: Kind, u: nat, n: int)
    requires u < TWO64 && Means(k, u, n)
    ensures CastNumber(k, u) == if InField(k, n) then Some(Num(n)) else None
  {
    match k
    case UVarint(_) =>
    case SVarint(_) => ZigzagInverse(n, u);
    case Varint(size) => if size == 8 { WholeWord(u, n); } else { LowHalf(u, n); }
  }

  /** Every number: it is what the word means if the field has room for it, and refused if not. */
  lemma NumberTaken(k: Kind, u: nat, n: int, rest: Bytes)
    requires u < TWO64 && Means(k, u, n)
    ensures DecScalar(k, Wire.Varint(u) + rest) == if InField(k, n) then Some(Read(Num(n), rest)) else None
  {
    NumberCast(k, u, n);
    VarintRoundTrip64(u, rest);
    hide Wire.Varint, Decode64, CastNumber, SignedFits, UnsignedFits, Zigzag;
  }

  /** Anything but zero is true. */
  lemma BoolTaken(u: nat, rest: Bytes)
    requires u < TWO32
    ensures DecScalar(Bool, Wire.Varint(u) + rest) == Some(Read(Num(if u == 0 then 0 else 1), rest))
  {
    VarintRoundTrip32(u, rest);
    hide Wire.Varint, Decode32;
  }

  // ------------------------------------------------------------- byte strings

  /** The text before the first NUL. */
  ghost predicate IsText(b: Bytes, s: Bytes) { s <= b && 0 !in s && (|s| < |b| ==> b[|s|] == 0) }

  lemma {:induction false} CStringIs(b: Bytes)
    ensures IsText(b, CString(b))
  {
    if b != [] && b[0] != 0 {
      CStringIs(b[1..]);
      assert b == [b[0]] + b[1..];
    }
  }

  lemma TextOne(b: Bytes, s: Bytes, t: Bytes)
    requires IsText(b, s) && IsText(b, t)
    ensures s == t
  {
  }

  /** A byte string must have room; a text also for its terminator, and ends at a NUL within it. */
  lemma BytesTaken(k: Kind, b: Bytes, s: Bytes, rest: Bytes)
    requires |b| < TWO32 && IsText(b, s)
    ensures k.Blob? ==> DecScalar(k, Delimited(b) + rest) == if |b| <= k.cap then Some(Read(Str(b), rest)) else None
    ensures k.Text? ==> DecScalar(k, Delimited(b) + rest) == if |b| < k.cap then Some(Read(Str(s), rest)) else None
    ensures k.FixedBlob? && b != [] ==> DecScalar(k, Delimited(b) + rest) == if |b| == k.len then Some(Read(Str(b), rest)) else None
    ensures k.FixedBlob? && b == [] ==> DecScalar(k, Delimited(b) + rest) == Some(Read(Default(k), rest))
  {
    DelimitedTaken(b, rest);
    CStringIs(b);
    TextOne(b, s, CString(b));
    hide Delimited, TakeDelimited, IsText, CString, Zeros;
  }

  // ------------------------------------------------------------ cut off early

  predicate Goes(p: Bytes) { forall i :: 0 <= i < |p| ==> p[i] >= 128 }

  lemma {:induction false} VarintGoes(n: nat, j: nat)
    requires j < |Wire.Varint(n)|
    ensures Goes(Wire.Varint(n)[..j])
    decreases n
  {
    if n >= 128 && j > 0 {
      VarintGoes(n / 128, j - 1);
      var v := Wire.Varint(n);
      assert v[..j] == [128 + n % 128] + Wire.Varint(n / 128)[..j - 1];
    }
  }

  lemma {:induction false} NoEnd64(p: Bytes, k: nat, acc: nat)
    requires Goes(p)
    ensures Decode64(p, k, acc) == None
    decreases |p|
  {
    hide Or, Pow2;
    if p != [] && k < 10 { NoEnd64(p[1..], k + 1, Or(acc, p[0] % 128 * Pow2(7 * k) % TWO64)); }
  }

  lemma {:induction false} NoEnd32From(p: Bytes, bitpos: nat, result: nat)
    requires Goes(p)
    ensures Decode32From(p, bitpos, result) == None
    decreases |p|
  {
    hide Or, Pow2;
    if p != [] {
      NoEnd32From(p[1..], (bitpos + 7) % 256, if bitpos >= 32 then result else Or(result, p[0] % 128 * Pow2(bitpos) % TWO32));
    }
  }

  lemma NoEnd32(p: Bytes)
    requires Goes(p)
    ensures Decode32(p) == None
  {
    if p != [] {
      assert Goes(p[1..]);
      NoEnd32From(p[1..], 7, p[0] % 128);
    }
  }

  lemma CutDelimited(b: Bytes, j: nat)
    requires |b| < TWO32 && j < |Delimited(b)|
    ensures TakeDelimited(Delimited(b)[..j]) == None
  {
    var size := Wire.Varint(|b|);
    var p := Delimited(b)[..j];
    hide Wire.Varint, Decode32;
    if j < |size| {
      assert p == size[..j];
      VarintGoes(|b|, j);
      NoEnd32(p);
    } else {
      var got := b[..j - |size|];
      assert p == size + got;
      VarintRoundTrip32(|b|, got);
    }
  }

  /** A payload that stops before its end is refused. */
  lemma CutRefused(k: Kind, v: Value, j: nat)
    requires !k.Submessage? && GoodItem(k, v) && j < |EncValue(k, v)|
    ensures DecScalar(k, EncValue(k, v)[..j]) == None
  {
    var p := EncValue(k, v)[..j];
    if k.Fixed32? || k.Fixed64? {
    } else if k.Blob? || k.Text? || k.FixedBlob? {
      CutDelimited(v.b, j);
      hide TakeDelimited, Delimited;
    } else if k.Bool? {
      VarintGoes(v.n, j);
      NoEnd32(p);
      hide Goes, Wire.Varint, Decode32;
    } else {
      NumberCasts(k, v);
      VarintGoes(Code(k, v.n), j);
      NoEnd64(p, 0, 0);
      hide Goes, Wire.Varint, Decode64;
    }
  }

  // ------------------------------------------------------- around the records

  /** Only a repeated field of numbers looks at the wire type, to tell a packed run. */
  lemma WireTypeIgnored(f: Field, slot: seq<Value>, a: nat, b: nat, input: Bytes)
    requires f.rule.Repeated? && Packable(f.kind) ==> a != 2 && b != 2
    ensures DecSlot(f, slot, a, input) == DecSlot(f, slot, b, input)
  {
    hide DecValue, Default;
  }

  /** A group, or a wire type there is none of, is refused in a field the descriptor does not have. */
  lemma GroupRefused(fs: seq<Field>, m: Slots, seen: set<nat>, tag: nat, wireType: nat, rest: Bytes)
    requires |m| == |fs| && 0 < tag < 0x2000_0000 && Find(fs, tag) == None && wireType < 8 && wireType !in {0, 1, 2, 5}
    ensures DecFrom(fs, m, seen, Tag(tag, wireType) + rest) == None
  {
    var t := 8 * tag + wireType;
    VarintRoundTrip32(t, rest);
    var input := Tag(tag, wireType) + rest;
    assert input != [] by { assert |Wire.Varint(t)| > 0; }
    hide Wire.Varint, Decode32, DecSlot, Find;
  }

  /** A zero byte in place of a tag ends the message; what follows is left. */
  lemma ZeroEnds(fs: seq<Field>, recs: seq<Rec>, rest: Bytes)
    requires WellFormed(fs) && AllGood(fs, recs)
    ensures var r := TakeFrom(fs, Got(Defaults(fs), {}), recs, 0);
            Decode(fs, EncRecs(fs, recs, 0) + [0] + rest) ==
            if r.Some? && Complete(fs, r.value.touched) then Some(Read(r.value.m, rest)) else None
  {
    DefaultsShaped(fs);
    var got, end := Got(Defaults(fs), {}), [0] + rest;
    NoneTracked(fs);
    var seen := RecsDecode(fs, got, {}, recs, 0, end);
    assert EncRecs(fs, recs, 0) + [0] + rest == EncRecs(fs, recs, 0) + end;
    var r := TakeFrom(fs, got, recs, 0);
    if r.Some? {
      SeenComplete(fs, seen, r.value.touched);
      ZeroTag(fs, r.value.m, seen, rest);
    }
    hide EncRecs, TakeFrom, Complete, AllSeen, Shaped, Tracks, DecFrom;
  }

  lemma ZeroTag(fs: seq<Field>, m: Slots, seen: set<nat>, rest: Bytes)
    requires |m| == |fs|
    ensures DecFrom(fs, m, seen, [0] + rest) == Some(Decoded(m, seen, rest))
  {
    assert ([0] + rest)[1..] == rest;
    hide DecSlot, Find, Skip;
  }
}
