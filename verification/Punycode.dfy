/**
 uv__idna_toascii_label: the Punycode encoder of section 6.3 of RFC 3492, in
 32-bit arithmetic and writing into a bounded buffer, against the decoder of
 section 6.2 of RFC 3492.
 */
module Punycode {
  import opened Bytes

  const UINT_MAX: nat := 0xFFFF_FFFF
  const DELIMITER: nat := 45          // '-'

  // ------------------------------------------- RFC 3492, sections 5 and 6

  function Digit(d: nat): (b: nat)
    requires d < 36
    ensures DigitValue(b) == Some(d) && b != DELIMITER
  {
    if d < 26 then 97 + d else 22 + d
  }

  function DigitValue(b: nat): Option<nat> {
    if 97 <= b <= 122 then Some(b - 97)
    else if 65 <= b <= 90 then Some(b - 65)
    else if 48 <= b <= 57 then Some(b - 22)
    else None
  }

  function Threshold(k: nat, bias: nat): (t: nat)
    ensures 1 <= t <= 26
  {
    if k <= bias + 1 then 1 else if k >= bias + 26 then 26 else k - bias
  }

  function AdaptLoop(delta: nat, k: nat): nat
    decreases delta
  {
    if delta > 455 then AdaptLoop(delta / 35, k + 36) else k + 36 * delta / (delta + 38)
  }

  /** Section 6.1: the bias for the next delta. */
  function Adapt(delta: nat, numPoints: nat, first: bool): nat
    requires numPoints > 0
  {
    var d := if first then delta / 700 else delta / 2;
    AdaptLoop(d + d / numPoints, 0)
  }

  datatype Parsed = Parsed(i: nat, rest: seq<nat>)

  /** One generalized variable-length integer, added to `i` with weight `w`. */
  function DecodeInt(input: seq<nat>, k: nat, bias: nat, w: nat, i: nat): Option<Parsed> {
    if input == [] || DigitValue(input[0]) == None then None
    else
      var digit := DigitValue(input[0]).value;
      var t := Threshold(k, bias);
      if digit < t then Some(Parsed(i + digit * w, input[1..]))
      else DecodeInt(input[1..], k + 36, bias, w * (36 - t), i + digit * w)
  }

  datatype Decoder = Decoder(n: nat, i: nat, bias: nat, output: seq<nat>)

  function Insert(s: seq<nat>, at: nat, x: nat): seq<nat>
    requires at <= |s|
  {
    s[..at] + [x] + s[at..]
  }

  /** The body of the decoding loop, after its integer has been read. */
  function DecodeStep(d: Decoder, i: nat): Decoder
    requires d.i <= i
  {
    var len := |d.output| + 1;
    Decoder(d.n + i / len, i % len + 1,
            Adapt(i - d.i, len, d.i == 0),
            Insert(d.output, i % len, d.n + i / len))
  }

  lemma {:induction false} DecodeIntGrows(input: seq<nat>, k: nat, bias: nat, w: nat, i: nat)
    ensures DecodeInt(input, k, bias, w, i).Some? ==>
              var p := DecodeInt(input, k, bias, w, i).value;
              i <= p.i && |p.rest| < |input|
  {
    if input != [] && DigitValue(input[0]).Some? {
      var t := Threshold(k, bias);
      DecodeIntGrows(input[1..], k + 36, bias, w * (36 - t), i + DigitValue(input[0]).value * w);
    }
  }

  /** Reads integers until the input is used up. */
  function Consume(d: Decoder, input: seq<nat>): Option<Decoder>
    decreases |input|
  {
    if input == [] then Some(d)
    else
      DecodeIntGrows(input, 36, d.bias, 1, d.i);
      var p := DecodeInt(input, 36, d.bias, 1, d.i);
      if p == None then None else Consume(DecodeStep(d, p.value.i), p.value.rest)
  }

  function LastDelimiter(input: seq<nat>): Option<nat> {
    if input == [] then None
    else if input[|input| - 1] == DELIMITER then Some(|input| - 1)
    else LastDelimiter(input[..|input| - 1])
  }

  /** Section 6.2. */
  function Decode(input: seq<nat>): Option<seq<nat>> {
    var b := LastDelimiter(input);
    var d := if b.Some? && b.value < |input| && b.value > 0
             then Consume(Decoder(128, 0, 72, input[..b.value]), input[b.value + 1..])
             else Consume(Decoder(128, 0, 72, []), input);
    if d == None then None else Some(d.value.output)
  }

  function Pow35(j: nat): (p: nat)
    ensures p > 0
  {
    if j == 0 then 1 else 35 * Pow35(j - 1)
  }

  /** Divided by 35 until at most 455, with 36 for each division. */
  lemma {:induction false} AdaptLoopClosed(delta: nat, k: nat) returns (j: nat)
    ensures var d := delta / Pow35(j);
            d <= 455 && AdaptLoop(delta, k) == k + 36 * j + 36 * d / (d + 38)
    ensures j > 0 ==> delta / Pow35(j - 1) > 455
    decreases delta
  {
    j := 0;
    if delta > 455 {
      var i := AdaptLoopClosed(delta / 35, k + 36);
      j := i + 1;
      DivTwice(delta, Pow35(i));
      if i > 0 { DivTwice(delta, Pow35(i - 1)); }
    }
  }

  lemma DivTwice(n: nat, p: nat)
    requires p > 0
    ensures n / 35 / p == n / (35 * p)
  {
    var m, q := n / 35, n / 35 / p;
    assert m == p * q + m % p;
    assert 35 * m == 35 * (p * q) + 35 * (m % p);
    DivIs(n, 35 * p, q, 35 * (m % p) + n % 35);
  }

  lemma DivIs(n: nat, m: nat, q: nat, r: nat)
    requires m > 0 && r < m && n == m * q + r
    ensures n / m == q
  {
    var k := n / m;
    assert n == m * k + n % m;
    SmallMultiple(k - q, m, r - n % m);
  }

  lemma SmallMultiple(x: int, m: int, y: int)
    requires m * x == y && -m < y < m
    ensures x == 0
  {
    assert x >= 1 ==> m * (x - 1) >= 0;
    assert x <= -1 ==> m * (-1 - x) >= 0;
  }

  // ------------------------------------------------------- known labels

  /** A digit string and what is left after it, read with this bias from i on. */
  lemma KnownIntegers()
    ensures DecodeInt([107, 118, 97], 36, 72, 1, 0) == Some(Parsed(745, []))            // kva
    ensures DecodeInt([52, 99, 97, 48, 98, 115], 36, 72, 1, 0) == Some(Parsed(100, [48, 98, 115]))
    ensures DecodeInt([48, 98, 115], 36, 0, 1, 1) == Some(Parsed(37, [115]))
    ensures DecodeInt([115], 36, 14, 1, 2) == Some(Parsed(20, []))
  {
    assert [107, 118, 97][1..] == [118, 97] && [118, 97][1..] == [97] && [97][1..] == [];
    assert DecodeInt([97], 108, 72, 1225, 745) == Some(Parsed(745, []));
    assert DecodeInt([118, 97], 72, 72, 35, 10) == Some(Parsed(745, []));
    var s: seq<nat> := [52, 99, 97, 48, 98, 115];
    assert s[1..] == [99, 97, 48, 98, 115] && s[1..][1..] == [97, 48, 98, 115] && s[1..][1..][1..] == [48, 98, 115];
    assert DecodeInt(s[1..][1..], 108, 72, 1225, 100) == Some(Parsed(100, [48, 98, 115]));
    assert DecodeInt(s[1..], 72, 72, 35, 30) == Some(Parsed(100, [48, 98, 115]));
    assert [48, 98, 115][1..] == [98, 115] && [98, 115][1..] == [115] && [115][1..] == [];
    assert DecodeInt([98, 115], 72, 0, 10, 27) == Some(Parsed(37, [115]));
  }

  lemma KnownBiases()
    ensures Adapt(100, 1, true) == 0 && Adapt(36, 2, false) == 14 && Adapt(1000, 2, false) == 36 + 36 * 21 / 59
  {
    assert AdaptLoop(21, 36) == 36 + 36 * 21 / 59;
  }

  /** Two labels: an inserted u umlaut, and three umlauts on their own. */
  lemma KnownLabels()
    ensures Decode([98, 99, 104, 101, 114, 45, 107, 118, 97]) == Some([98, 252, 99, 104, 101, 114])   // bcher-kva
    ensures Decode([52, 99, 97, 48, 98, 115]) == Some([228, 246, 252])                                // 4ca0bs
  {
    KnownDelimiters();
    OneInserted();
    ThreeInserted();
    hide Consume, LastDelimiter;
    var one: seq<nat> := [98, 99, 104, 101, 114, 45, 107, 118, 97];
    assert one[..5] == [98, 99, 104, 101, 114] && one[6..] == [107, 118, 97];
  }

  lemma OneInserted()
    ensures Consume(Decoder(128, 0, 72, [98, 99, 104, 101, 114]), [107, 118, 97]).Some?
    ensures Consume(Decoder(128, 0, 72, [98, 99, 104, 101, 114]), [107, 118, 97]).value.output == [98, 252, 99, 104, 101, 114]
  {
    KnownIntegers();
    hide DecodeInt, Adapt;
    var d := Decoder(128, 0, 72, [98, 99, 104, 101, 114]);
    assert Insert(d.output, 1, 252) == [98, 252, 99, 104, 101, 114];
    assert Consume(DecodeStep(d, 745), []) == Some(DecodeStep(d, 745));
  }

  lemma ThreeInserted()
    ensures Consume(Decoder(128, 0, 72, []), [52, 99, 97, 48, 98, 115]).Some?
    ensures Consume(Decoder(128, 0, 72, []), [52, 99, 97, 48, 98, 115]).value.output == [228, 246, 252]
  {
    KnownIntegers();
    KnownSteps();
    hide *;
    var d0, d1, d2, d3 := Decoder(128, 0, 72, []), Decoder(228, 1, 0, [228]), Decoder(246, 2, 14, [228, 246]), DecodeStep(Decoder(246, 2, 14, [228, 246]), 20);
    ConsumeNext(d0, [52, 99, 97, 48, 98, 115], 100, [48, 98, 115]);
    ConsumeNext(d1, [48, 98, 115], 37, [115]);
    ConsumeNext(d2, [115], 20, []);
    ConsumeNone(d3);
  }

  lemma ConsumeNext(d: Decoder, input: seq<nat>, i: nat, rest: seq<nat>)
    requires input != [] && d.i <= i && DecodeInt(input, 36, d.bias, 1, d.i) == Some(Parsed(i, rest))
    ensures Consume(d, input) == Consume(DecodeStep(d, i), rest)
  {
    hide DecodeInt, DecodeStep;
  }

  lemma ConsumeNone(d: Decoder)
    ensures Consume(d, []) == Some(d)
  {
  }

  lemma KnownSteps()
    ensures DecodeStep(Decoder(128, 0, 72, []), 100) == Decoder(228, 1, 0, [228])
    ensures DecodeStep(Decoder(228, 1, 0, [228]), 37) == Decoder(246, 2, 14, [228, 246])
    ensures DecodeStep(Decoder(246, 2, 14, [228, 246]), 20).output == [228, 246, 252]
  {
    KnownBiases();
    hide Adapt;
    assert Insert([228], 1, 246) == [228, 246] && Insert([228, 246], 2, 252) == [228, 246, 252];
  }

  lemma KnownDelimiters()
    ensures LastDelimiter([98, 99, 104, 101, 114, 45, 107, 118, 97]) == Some(5)
    ensures LastDelimiter([52, 99, 97, 48, 98, 115]) == None
  {
    var one, two: seq<nat> := [98, 99, 104, 101, 114, 45, 107, 118, 97], [52, 99, 97, 48, 98, 115];
    assert one[..8] == [98, 99, 104, 101, 114, 45, 107, 118] && one[..8][..7] == [98, 99, 104, 101, 114, 45, 107];
    assert one[..8][..7][..6] == [98, 99, 104, 101, 114, 45];
    assert LastDelimiter([98, 99, 104, 101, 114, 45]) == Some(5);
    assert LastDelimiter(one[..8][..7]) == Some(5);
    assert two[..5] == [52, 99, 97, 48, 98] && two[..5][..4] == [52, 99, 97, 48] && [52, 99, 97, 48][..3] == [52, 99, 97];
    assert [52, 99, 97][..2] == [52, 99] && [52, 99][..1] == [52] && [52][..0] == [];
    assert LastDelimiter([52, 99]) == None;
    assert LastDelimiter([52, 99, 97, 48]) == None;
  }

  // ------------------------------------------------ integers round-trip

  lemma DivSmaller(q: nat, t: nat)
    requires 1 <= t <= 26 && t <= q
    ensures (q - t) / (36 - t) < q
  {
    var a, b := q - t, 36 - t;
    assert a / b <= a by {
      assert a == b * (a / b) + a % b;
      assert b * (a / b) >= a / b;
    }
  }

  /** q after one digit, and the digit. */
  function Shifted(q: nat, t: nat): (r: nat)
    requires 1 <= t <= 26 && t <= q
    ensures r < q
  {
    DivSmaller(q, t);
    (q - t) / (36 - t)
  }

  function LowDigit(q: nat, t: nat): (d: nat)
    requires 1 <= t <= 26 && t <= q
    ensures t <= d < 36
  {
    t + (q - t) % (36 - t)
  }

  /** The digits the encoder writes for `q`. */
  function VarInt(q: nat, k: nat, bias: nat): seq<nat>
    decreases q
  {
    var t := Threshold(k, bias);
    if q < t then [Digit(q)] else [Digit(LowDigit(q, t))] + VarInt(Shifted(q, t), k + 36, bias)
  }

  lemma WeightedDigit(q: nat, t: nat, w: nat)
    requires 1 <= t <= 26 && t <= q
    ensures LowDigit(q, t) * w + Shifted(q, t) * (w * (36 - t)) == q * w
  {
    var b, x := 36 - t, (q - t) / (36 - t);
    calc {
      LowDigit(q, t) * w + x * (w * b);
    ==
      (LowDigit(q, t) + x * b) * w;
    == { assert q - t == x * b + (q - t) % b; }
      q * w;
    }
  }

  /** DecodeInt on a digit that is the last, and on one that is not. */
  lemma DecodeDigit(input: seq<nat>, k: nat, bias: nat, w: nat, i: nat, d: nat)
    requires input != [] && DigitValue(input[0]) == Some(d)
    ensures DecodeInt(input, k, bias, w, i) ==
            if d < Threshold(k, bias) then Some(Parsed(i + d * w, input[1..]))
            else DecodeInt(input[1..], k + 36, bias, w * (36 - Threshold(k, bias)), i + d * w)
  {
  }

  lemma {:induction false} VarIntDecodes(q: nat, k: nat, bias: nat, w: nat, i: nat, rest: seq<nat>)
    ensures DecodeInt(VarInt(q, k, bias) + rest, k, bias, w, i) == Some(Parsed(i + q * w, rest))
    decreases q
  {
    hide DecodeInt, Shifted, LowDigit, Threshold, Digit, DigitValue;
    var t := Threshold(k, bias);
    var input := VarInt(q, k, bias) + rest;
    if q < t {
      assert input[0] == Digit(q) && input[1..] == rest;
      DecodeDigit(input, k, bias, w, i, q);
    } else {
      var q', d := Shifted(q, t), LowDigit(q, t);
      assert input[0] == Digit(d) && input[1..] == VarInt(q', k + 36, bias) + rest;
      VarIntDecodes(q', k + 36, bias, w * (36 - t), i + d * w, rest);
      DecodeDigit(input, k, bias, w, i, d);
      WeightedDigit(q, t, w);
    }
  }

  lemma {:induction false} VarIntDigits(q: nat, k: nat, bias: nat)
    ensures VarInt(q, k, bias) != [] && DELIMITER !in VarInt(q, k, bias)
    decreases q
  {
    hide Shifted, LowDigit, Threshold;
    var t := Threshold(k, bias);
    if q >= t { VarIntDigits(Shifted(q, t), k + 36, bias); }
  }

  lemma {:induction false} DecodeIntExtends(input: seq<nat>, more: seq<nat>, k: nat, bias: nat, w: nat, i: nat)
    requires DecodeInt(input, k, bias, w, i).Some?
    ensures var p := DecodeInt(input, k, bias, w, i).value;
            DecodeInt(input + more, k, bias, w, i) == Some(Parsed(p.i, p.rest + more))
  {
    assert (input + more)[1..] == input[1..] + more;
    var digit, t := DigitValue(input[0]).value, Threshold(k, bias);
    if digit >= t {
      DecodeIntExtends(input[1..], more, k + 36, bias, w * (36 - t), i + digit * w);
    }
  }

  /** Decoding can stop between two integers and go on. */
  lemma {:induction false} ConsumeExtends(d: Decoder, input: seq<nat>, more: seq<nat>)
    requires Consume(d, input).Some?
    ensures Consume(d, input + more) == Consume(Consume(d, input).value, more)
    decreases |input|
  {
    if input == [] {
      assert input + more == more;
    } else {
      DecodeIntGrows(input, 36, d.bias, 1, d.i);
      DecodeIntExtends(input, more, 36, d.bias, 1, d.i);
      var p := DecodeInt(input, 36, d.bias, 1, d.i).value;
      ConsumeExtends(DecodeStep(d, p.i), p.rest, more);
    }
  }

  lemma ConsumeOne(d: Decoder, delta: nat)
    ensures Consume(d, VarInt(delta, 36, d.bias)) == Some(DecodeStep(d, d.i + delta))
  {
    var input := VarInt(delta, 36, d.bias);
    VarIntDigits(delta, 36, d.bias);
    VarIntDecodes(delta, 36, d.bias, 1, d.i, []);
    assert input + [] == input;
  }

  // ---------------------------------------- the order of the insertions

  /** Is L[x] already in the decoder's output when the encoder is at (n, j)? */
  predicate Done(c: nat, x: int, n: nat, j: nat) {
    c < n || (c == n && x < j)
  }

  /** The code points of L[..e] already in the output, in order. */
  function Placed(L: seq<nat>, e: nat, n: nat, j: nat): seq<nat>
    requires e <= |L|
  {
    if e == 0 then []
    else Placed(L, e - 1, n, j) + (if Done(L[e - 1], e - 1, n, j) then [L[e - 1]] else [])
  }

  lemma {:induction false} PlacedSame(L: seq<nat>, e: nat, n: nat, j: nat, n': nat, j': nat)
    requires e <= |L|
    requires forall x :: 0 <= x < e ==> (Done(L[x], x, n, j) <==> Done(L[x], x, n', j'))
    ensures Placed(L, e, n, j) == Placed(L, e, n', j')
  {
    if e > 0 { PlacedSame(L, e - 1, n, j, n', j'); }
  }

  /** Moving past one more `n` inserts it right after what is placed before it. */
  lemma {:induction false} PlacedInsert(L: seq<nat>, e: nat, n: nat, j: nat)
    requires j < e <= |L| && L[j] == n
    ensures |Placed(L, j, n, j)| <= |Placed(L, e, n, j)|
    ensures Placed(L, e, n, j + 1) == Insert(Placed(L, e, n, j), |Placed(L, j, n, j)|, n)
  {
    if e == j + 1 {
      PlacedSame(L, j, n, j, n, j + 1);
      var p := Placed(L, j, n, j);
      assert Placed(L, e, n, j) == p;
      assert p[..|p|] == p && p[|p|..] == [];
    } else {
      PlacedInsert(L, e - 1, n, j);
      var p, q, at := Placed(L, e - 1, n, j), Placed(L, e, n, j), |Placed(L, j, n, j)|;
      assert Placed(L, e, n, j + 1) == Insert(p, at, n) + q[|p|..];
      assert q[..at] == p[..at] && q[at..] == p[at..] + q[|p|..];
    }
  }

  lemma {:induction false} PlacedAll(L: seq<nat>, e: nat, n: nat, j: nat)
    requires e <= |L|
    ensures |Placed(L, e, n, j)| <= e
    ensures |Placed(L, e, n, j)| == e <==> (forall x :: 0 <= x < e ==> Done(L[x], x, n, j))
    ensures |Placed(L, e, n, j)| == e ==> Placed(L, e, n, j) == L[..e]
  {
    if e > 0 {
      PlacedAll(L, e - 1, n, j);
      assert L[..e] == L[..e - 1] + [L[e - 1]];
    }
  }

  /**
   The encoder's delta is the distance the decoder's counter <n, i> has to run
   from its last insertion to the place the encoder is looking at.
   */
  ghost predicate InStep(d: Decoder, L: seq<nat>, n: nat, j: nat, delta: nat)
    requires j <= |L|
  {
    && d.output == Placed(L, |L|, n, j)
    && d.i <= |d.output|
    && d.n * (|d.output| + 1) + d.i + delta == n * (|d.output| + 1) + |Placed(L, j, n, j)|
  }

  lemma DivMod(a: nat, q: nat, len: nat, r: nat)
    requires len > 0 && r < len && a == q * len + r
    ensures a / len == q && a % len == r
  {
    var z := a / len - q;
    assert a == len * (a / len) + a % len;
    assert z * len == r - a % len;
    assert z >= 1 ==> z * len >= len;
    assert z <= -1 ==> z * len + len <= 0;
  }

  /** Emitting delta makes the decoder insert exactly the code point at hand. */
  lemma EmitInserts(d: Decoder, L: seq<nat>, n: nat, j: nat, delta: nat)
    requires j < |L| && L[j] == n && d.n <= n && InStep(d, L, n, j, delta)
    ensures InStep(DecodeStep(d, d.i + delta), L, n, j + 1, 0)
    ensures DecodeStep(d, d.i + delta).n == n && DecodeStep(d, d.i + delta).i == |Placed(L, j, n, j)| + 1
    ensures |DecodeStep(d, d.i + delta).output| == |d.output| + 1
  {
    var len, at := |d.output| + 1, |Placed(L, j, n, j)|;
    PlacedInsert(L, |L|, n, j);
    assert d.i + delta == (n - d.n) * len + at;
    DivMod(d.i + delta, n - d.n, len, at);
    PlacedSame(L, j, n, j, n, j + 1);
  }

  // ----------------------------------------------------------- the encoder

  /** What fits of `s` in a buffer of `cap` bytes. */
  function Cut(s: seq<nat>, cap: nat): seq<nat> {
    if |s| <= cap then s else s[..cap]
  }

  /** `if (*d < de) *(*d)++ = b;` */
  function Push(out: seq<nat>, cap: nat, b: nat): seq<nat> {
    if |out| < cap then out + [b] else out
  }

  lemma PushCut(s: seq<nat>, cap: nat, b: nat)
    ensures Push(Cut(s, cap), cap, b) == Cut(s + [b], cap)
  {
  }

  /** The inner loop: one variable-length integer. */
  method PutVarInt(out: seq<nat>, cap: nat, delta: nat, bias: nat, ghost full: seq<nat>) returns (r: seq<nat>)
    requires out == Cut(full, cap)
    ensures r == Cut(full + VarInt(delta, 36, bias), cap)
  {
    hide Cut, Push;
    var k: nat, q: nat := 36, delta;
    ghost var written := full;
    r := out;
    while true
      invariant r == Cut(written, cap)
      invariant written + VarInt(q, k, bias) == full + VarInt(delta, 36, bias)
      decreases q
    {
      var t := 1;
      if k > bias { t := k - bias; }
      if t > 26 { t := 26; }
      assert t == Threshold(k, bias);
      if q < t { break; }
      var x, y := q - t, 36 - t;
      var digit := t + x % y;
      assert digit == LowDigit(q, t) && x / y == Shifted(q, t);
      PushCut(written, cap, Digit(digit));
      r := Push(r, cap, Digit(digit));
      assert (written + [Digit(digit)]) + VarInt(x / y, k + 36, bias) == written + VarInt(q, k, bias);
      written := written + [Digit(digit)];
      q := x / y;
      k := k + 36;
    }
    PushCut(written, cap, Digit(q));
    r := Push(r, cap, Digit(q));
  }

  lemma HalfThen350(delta: nat)
    ensures delta / 2 / 350 == delta / 700
  {
  }

  lemma AdaptLoopUnfold(d: nat, k: nat)
    ensures AdaptLoop(d, k) == if d > 455 then AdaptLoop(d / 35, k + 36) else k + 36 * d / (d + 38)
  {
  }

  /** The bias adaptation as the code does it, dividing by 2 and then by 350. */
  method NextBias(delta: nat, h: nat, first: bool) returns (bias: nat)
    requires h > 0
    ensures bias == Adapt(delta, h, first)
  {
    hide AdaptLoop;
    HalfThen350(delta);
    var d: nat := delta / 2;
    if first { d := d / 350; }
    d := d + d / h;
    bias := 0;
    ghost var target := AdaptLoop(d, 0);
    assert target == Adapt(delta, h, first);
    while d > 455
      invariant AdaptLoop(d, bias) == target
    {
      AdaptLoopUnfold(d, bias);
      d := d / 35;
      bias := bias + 36;
    }
    AdaptLoopUnfold(d, bias);
    bias := bias + 36 * d / (d + 38);
  }

  // -------------------------------------------------- a label of code points

  /** What UTF-8 decoding hands over: code points, or UINT_MAX for a malformed sequence. */
  predicate Label(L: seq<nat>) {
    && |L| < UINT_MAX
    && (forall x :: 0 <= x < |L| ==> L[x] < 0x11_0000 || L[x] == UINT_MAX)
  }

  function Ascii(L: seq<nat>): seq<nat> { Placed(L, |L|, 128, 0) }

  function Start(L: seq<nat>): Decoder { Decoder(128, 0, 72, Ascii(L)) }

  /** The encoder after writing `tail` stands where the decoder `d` stands. */
  ghost predicate Reached(L: seq<nat>, tail: seq<nat>, d: Decoder) {
    Consume(Start(L), tail) == Some(d) && DELIMITER !in tail
  }

  // -------------------------------------------- the deltas a label needs

  /** Order of insertion: by code point, then by position. */
  predicate Precedes(L: seq<nat>, p: nat, x: nat)
    requires p < |L| && x < |L|
  {
    L[p] < L[x] || (L[p] == L[x] && p < x)
  }

  /** L[p] is the last code point inserted before the encoder comes to (n, j). */
  ghost predicate IsLast(L: seq<nat>, p: nat, n: nat, j: nat) {
    && p < |L| && 128 <= L[p] && Done(L[p], p, n, j)
    && forall y: nat :: y < |L| && 128 <= L[y] && Done(L[y], y, n, j) ==> y == p || Precedes(L, y, p)
  }

  /** The decoder's counter <n0, i0> after the insertions before (n, j). */
  ghost predicate Stands(L: seq<nat>, n0: nat, i0: nat, n: nat, j: nat) {
    || (n0 == 128 && i0 == 0 && forall y: nat :: y < |L| && 128 <= L[y] ==> !Done(L[y], y, n, j))
    || exists p: nat :: IsLast(L, p, n, j) && n0 == L[p] && i0 == |Placed(L, p, L[p], p)| + 1
  }

  /** The distance from there to the place of L[x], when L[x] is next: section 3.3 of RFC 3492. */
  ghost predicate DeltaAt(L: seq<nat>, x: nat, delta: nat) {
    && x < |L| && 128 <= L[x]
    && var h := |Placed(L, |L|, L[x], x)|;
       exists n0: nat, i0: nat :: Stands(L, n0, i0, L[x], x) && Distance(n0, i0, h, delta, L[x], |Placed(L, x, L[x], x)|)
  }

  predicate Distance(n0: nat, i0: nat, h: nat, delta: nat, n: nat, at: nat) {
    n0 * (h + 1) + i0 + delta == n * (h + 1) + at
  }

  /** Some delta of the label is more than 32 bits hold. */
  ghost predicate Overflows(L: seq<nat>) {
    exists x: nat, delta: nat :: DeltaAt(L, x, delta) && delta > UINT_MAX
  }

  /** No delta written so far is. */
  ghost predicate Fine(L: seq<nat>, n: nat, j: nat) {
    forall x: nat, delta: nat :: DeltaAt(L, x, delta) && Done(L[x], x, n, j) ==> delta <= UINT_MAX
  }

  lemma StandsUnique(L: seq<nat>, n: nat, j: nat, n0: nat, i0: nat, n1: nat, i1: nat)
    requires Stands(L, n0, i0, n, j) && Stands(L, n1, i1, n, j)
    ensures n0 == n1 && i0 == i1
  {
    hide Placed;
    if p: nat :| IsLast(L, p, n, j) && n0 == L[p] && i0 == |Placed(L, p, L[p], p)| + 1 {
      if q: nat :| IsLast(L, q, n, j) && n1 == L[q] && i1 == |Placed(L, q, L[q], q)| + 1 {
        assert p == q;
      }
    }
  }

  /** Where the same code points are inserted, the decoder stands at the same place. */
  lemma StandsSame(L: seq<nat>, n0: nat, i0: nat, n: nat, j: nat, n': nat, j': nat)
    requires Stands(L, n0, i0, n, j)
    requires forall y: nat :: y < |L| ==> (Done(L[y], y, n, j) <==> Done(L[y], y, n', j'))
    ensures Stands(L, n0, i0, n', j') && (Fine(L, n, j) ==> Fine(L, n', j'))
  {
    hide Placed, DeltaAt;
    if p: nat :| IsLast(L, p, n, j) && n0 == L[p] && i0 == |Placed(L, p, L[p], p)| + 1 { assert IsLast(L, p, n', j'); }
    forall x: nat, delta: nat | Fine(L, n, j) && DeltaAt(L, x, delta) ensures x < |L| { AtPoint(L, x, delta); }
  }

  lemma AtPoint(L: seq<nat>, x: nat, delta: nat)
    requires DeltaAt(L, x, delta)
    ensures x < |L| && 128 <= L[x]
  {
  }

  /** After writing the delta of L[j]. */
  lemma StandsEmit(L: seq<nat>, d: Decoder, n: nat, j: nat, delta: nat)
    requires j < |L| && L[j] == n && 128 <= n && delta <= UINT_MAX
    requires InStep(d, L, n, j, delta) && Stands(L, d.n, d.i, n, j) && Fine(L, n, j)
    ensures Stands(L, n, |Placed(L, j, n, j)| + 1, n, j + 1) && Fine(L, n, j + 1)
  {
    hide Placed;
    assert IsLast(L, j, n, j + 1);
    forall x: nat, big: nat | DeltaAt(L, x, big) && Done(L[x], x, n, j + 1) ensures big <= UINT_MAX {
      if x == j {
        OneDelta(L, d, j, delta, big);
      } else {
        assert Done(L[x], x, n, j);
      }
    }
  }

  lemma OneDelta(L: seq<nat>, d: Decoder, x: nat, delta: nat, big: nat)
    requires x < |L| && InStep(d, L, L[x], x, delta) && Stands(L, d.n, d.i, L[x], x) && DeltaAt(L, x, big)
    ensures big == delta
  {
    hide Placed;
    var h := |Placed(L, |L|, L[x], x)|;
    var n0: nat, i0: nat :| Stands(L, n0, i0, L[x], x) && Distance(n0, i0, h, big, L[x], |Placed(L, x, L[x], x)|);
    StandsUnique(L, L[x], x, n0, i0, d.n, d.i);
    hide Stands;
  }

  lemma {:induction false} LeastUndone(L: seq<nat>, e: nat, n: nat, j: nat) returns (x: nat)
    requires e <= |L| && exists y: nat :: y < e && !Done(L[y], y, n, j)
    ensures x < e && !Done(L[x], x, n, j)
    ensures forall y: nat :: y < e && !Done(L[y], y, n, j) ==> y == x || Precedes(L, x, y)
  {
    x := e - 1;
    if y: nat :| y < e - 1 && !Done(L[y], y, n, j) {
      var z := LeastUndone(L, e - 1, n, j);
      if Done(L[x], x, n, j) || L[z] <= L[x] { x := z; }
    }
  }

  /** The delta under way only grows until the next code point is written. */
  lemma NextDelta(L: seq<nat>, d: Decoder, n: nat, j: nat, delta: nat)
    requires j <= |L| && 128 <= n && InStep(d, L, n, j, delta) && Stands(L, d.n, d.i, n, j) && |d.output| < |L|
    ensures exists x: nat, big: nat :: DeltaAt(L, x, big) && delta <= big
  {
    hide Stands, DeltaAt;
    PlacedAll(L, |L|, n, j);
    var y: nat :| y < |L| && !Done(L[y], y, n, j);
    var x := LeastUndone(L, |L|, n, j);
    forall z: nat | z < |L| ensures Done(L[z], z, n, j) <==> Done(L[z], z, L[x], x) {
      assert !Done(L[z], z, n, j) ==> z == x || Precedes(L, x, z);
    }
    PlacedSame(L, |L|, n, j, L[x], x);
    StandsSame(L, d.n, d.i, n, j, L[x], x);
    PlacedGrows(L, n, j, x);
    hide Placed, Done;
    var big := Farther(d, |Placed(L, j, n, j)|, n, delta, L[x], |Placed(L, x, L[x], x)|);
    ThisDelta(L, x, d, big);
  }

  lemma ThisDelta(L: seq<nat>, x: nat, d: Decoder, delta: nat)
    requires x < |L| && 128 <= L[x] && Stands(L, d.n, d.i, L[x], x)
    requires Distance(d.n, d.i, |Placed(L, |L|, L[x], x)|, delta, L[x], |Placed(L, x, L[x], x)|)
    ensures DeltaAt(L, x, delta)
  {
    hide Stands, Placed;
  }

  lemma Farther(d: Decoder, at: nat, n: nat, delta: nat, m: nat, to: nat) returns (big: nat)
    requires Distance(d.n, d.i, |d.output|, delta, n, at) && at <= |d.output|
    requires n < m || (n == m && at <= to)
    ensures delta <= big && Distance(d.n, d.i, |d.output|, big, m, to)
  {
    var h := |d.output|;
    var here, there := n * (h + 1), m * (h + 1);
    LaterPlace(n, m, h);
    big := delta + there - here + to - at;
  }

  lemma LaterPlace(n: nat, m: nat, h: nat)
    requires n <= m
    ensures n * (h + 1) <= m * (h + 1) && (n < m ==> n * (h + 1) + h + 1 <= m * (h + 1))
  {
    var g := m - n;
    assert m * (h + 1) == n * (h + 1) + g * (h + 1);
    if g > 0 { assert g * (h + 1) == (g - 1) * (h + 1) + (h + 1) && (g - 1) * (h + 1) >= 0; }
  }

  lemma {:induction false} PlacedPrefix(L: seq<nat>, a: nat, b: nat, n: nat, j: nat)
    requires a <= b <= |L|
    ensures |Placed(L, a, n, j)| <= |Placed(L, b, n, j)|
  {
    if a < b { PlacedPrefix(L, a, b - 1, n, j); }
  }

  lemma PlacedGrows(L: seq<nat>, n: nat, j: nat, x: nat)
    requires j <= |L| && x < |L| && !Done(L[x], x, n, j)
    ensures |Placed(L, j, n, j)| <= |Placed(L, |L|, n, j)|
    ensures L[x] == n ==> |Placed(L, j, n, j)| <= |Placed(L, x, n, x)|
  {
    PlacedPrefix(L, j, |L|, n, j);
    if L[x] == n {
      PlacedSame(L, j, n, j, n, x);
      PlacedPrefix(L, j, x, n, x);
    }
  }

  /** Everything the encoder's variables say at (n, j). */
  ghost predicate Sync(L: seq<nat>, tail: seq<nat>, d: Decoder, n: nat, j: nat, delta: nat, bias: nat, first: bool, h: nat, todo: nat) {
    && j <= |L| && Reached(L, tail, d) && InStep(d, L, n, j, delta)
    && d.n <= n && d.bias == bias && (first <==> d.i == 0)
    && h == |d.output| && h + todo == |L|
    && 128 <= n && Stands(L, d.n, d.i, n, j) && Fine(L, n, j)
  }

  lemma SyncSkip(L: seq<nat>, tail: seq<nat>, d: Decoder, n: nat, j: nat, delta: nat, bias: nat, first: bool, h: nat, todo: nat)
    requires j < |L| && L[j] != n
    requires Sync(L, tail, d, n, j, delta, bias, first, h, todo)
    ensures Sync(L, tail, d, n, j + 1, if L[j] < n then delta + 1 else delta, bias, first, h, todo)
  {
    hide Reached, Stands, Fine;
    PlacedSame(L, |L|, n, j, n, j + 1);
    PlacedSame(L, j, n, j, n, j + 1);
    StandsSame(L, d.n, d.i, n, j, n, j + 1);
  }

  lemma SyncEmit(L: seq<nat>, tail: seq<nat>, d: Decoder, n: nat, j: nat, delta: nat, bias: nat, first: bool, h: nat, todo: nat)
    requires j < |L| && L[j] == n && delta <= UINT_MAX
    requires Sync(L, tail, d, n, j, delta, bias, first, h, todo)
    ensures todo > 0
    ensures Sync(L, tail + VarInt(delta, 36, bias), DecodeStep(d, d.i + delta), n, j + 1, 0,
                 Adapt(delta, h + 1, first), false, h + 1, todo - 1)
  {
    hide Consume, Placed, VarInt, Adapt, Stands, Fine;
    EmitInserts(d, L, n, j, delta);
    StandsEmit(L, d, n, j, delta);
    ConsumeOne(d, delta);
    VarIntDigits(delta, 36, bias);
    ConsumeExtends(Start(L), tail, VarInt(delta, 36, bias));
    PlacedAll(L, |L|, n, j + 1);
  }

  function Scaled(delta: nat, x: nat, y: nat): nat {
    assert x * y >= 0;
    delta + x * y
  }

  /** From the end of one scan to the start of the next: n to m, with no code point between. */
  lemma SyncAdvance(L: seq<nat>, tail: seq<nat>, d: Decoder, n: nat, delta: nat, bias: nat, first: bool, h: nat, todo: nat, m: nat)
    requires n <= m && (forall x :: 0 <= x < |L| ==> L[x] < n || m <= L[x])
    requires Sync(L, tail, d, n, 0, delta, bias, first, h, todo)
    ensures Sync(L, tail, d, m, 0, Scaled(delta, m - n, h + 1), bias, first, h, todo)
  {
    hide Reached, Stands, Fine;
    PlacedSame(L, |L|, n, 0, m, 0);
    StandsSame(L, d.n, d.i, n, 0, m, 0);
    assert (m - n) * (h + 1) + n * (h + 1) == m * (h + 1);
  }

  lemma SyncNext(L: seq<nat>, tail: seq<nat>, d: Decoder, n: nat, delta: nat, bias: nat, first: bool, h: nat, todo: nat)
    requires Sync(L, tail, d, n, |L|, delta, bias, first, h, todo)
    ensures Sync(L, tail, d, n + 1, 0, delta + 1, bias, first, h, todo)
  {
    hide Reached, Stands, Fine;
    PlacedSame(L, |L|, n, |L|, n + 1, 0);
    StandsSame(L, d.n, d.i, n, |L|, n + 1, 0);
    assert (n + 1) * (h + 1) == n * (h + 1) + h + 1;
  }

  lemma {:induction false} LastDelimiterAfter(head: seq<nat>, tail: seq<nat>)
    requires DELIMITER !in tail
    ensures LastDelimiter(head + [DELIMITER] + tail) == Some(|head|)
  {
    var s := head + [DELIMITER] + tail;
    if tail == [] {
      assert s == head + [DELIMITER];
    } else {
      var t := tail[..|tail| - 1];
      assert s[..|s| - 1] == head + [DELIMITER] + t;
      LastDelimiterAfter(head, t);
    }
  }

  lemma {:induction false} NoDelimiter(tail: seq<nat>)
    requires DELIMITER !in tail
    ensures LastDelimiter(tail) == None
  {
    if tail != [] { NoDelimiter(tail[..|tail| - 1]); }
  }

  /** The text after "xn--": ASCII code points, a separator if there are any, the integers. */
  function Text(L: seq<nat>, tail: seq<nat>): seq<nat> {
    (if Ascii(L) == [] then [] else Ascii(L) + [DELIMITER]) + tail
  }

  lemma TextDecodes(L: seq<nat>, tail: seq<nat>, d: Decoder)
    requires Reached(L, tail, d)
    ensures Decode(Text(L, tail)) == Some(d.output)
  {
    hide Consume, Placed;
    var a := Ascii(L);
    if a == [] {
      assert Text(L, tail) == tail;
      NoDelimiter(tail);
    } else {
      LastDelimiterAfter(a, tail);
      var s := Text(L, tail);
      assert s[..|a|] == a && s[|a| + 1..] == tail;
    }
  }

  // ------------------------------------------------------------ the function

  datatype Rc = Invalid | TooBig | Length(n: nat)

  method Count(L: seq<nat>) returns (bad: bool, h: nat, todo: nat)
    requires Label(L)
    ensures bad <==> UINT_MAX in L
    ensures !bad ==> h == |Ascii(L)| && h + todo == |L|
  {
    h, todo := 0, 0;
    for j := 0 to |L|
      invariant UINT_MAX !in L[..j]
      invariant h == |Placed(L, j, 128, 0)| && h + todo == j
    {
      assert L[..j + 1] == L[..j] + [L[j]];
      if L[j] < 128 {
        h := h + 1;
      } else if L[j] == UINT_MAX {
        return true, h, todo;
      } else {
        todo := todo + 1;
      }
    }
    assert L[..|L|] == L;
    bad := false;
  }

  lemma {:induction false} PlacedRest(L: seq<nat>, j: nat, e: nat, n: nat)
    requires j <= e <= |L|
    ensures |Placed(L, j, n, 0)| <= |Placed(L, e, n, 0)|
    ensures |Placed(L, j, n, 0)| == |Placed(L, e, n, 0)| ==> Placed(L, j, n, 0) == Placed(L, e, n, 0)
  {
    if j < e { PlacedRest(L, j, e - 1, n); }
  }

  method CopyAscii(L: seq<nat>, h: nat, out: seq<nat>, cap: nat, ghost full: seq<nat>) returns (r: seq<nat>)
    requires Label(L) && h == |Ascii(L)| && out == Cut(full, cap)
    ensures r == Cut(full + Ascii(L), cap)
  {
    hide Cut, Push;
    r := out;
    var x := 0;
    assert full + [] == full;
    for j := 0 to |L|
      invariant x == |Placed(L, j, 128, 0)| && (x == h ==> h == 0)
      invariant r == Cut(full + Placed(L, j, 128, 0), cap)
    {
      ghost var p := Placed(L, j, 128, 0);
      PlacedRest(L, j + 1, |L|, 128);
      assert p + [] == p;
      if L[j] > 127 { continue; }
      PushCut(full + p, cap, L[j]);
      assert full + p + [L[j]] == full + (p + [L[j]]);
      r := Push(r, cap, L[j]);
      x := x + 1;
      if x == h { return; }
    }
  }

  /** The smallest code point that is at least `n`. */
  method NextPoint(L: seq<nat>, n: nat) returns (m: nat)
    requires exists x :: 0 <= x < |L| && n <= L[x] < UINT_MAX
    ensures m in L && m >= n
    ensures forall x :: 0 <= x < |L| ==> L[x] < n || m <= L[x]
  {
    m := UINT_MAX;
    for j := 0 to |L|
      invariant m == UINT_MAX || (m in L && m >= n)
      invariant m <= UINT_MAX
      invariant forall x :: 0 <= x < j ==> L[x] < n || m <= L[x]
    {
      if L[j] >= n && L[j] < m { m := L[j]; }
    }
  }

  lemma OverflowHere(L: seq<nat>, tail: seq<nat>, d: Decoder, n: nat, j: nat, delta: nat, bias: nat, first: bool, h: nat, todo: nat)
    requires Sync(L, tail, d, n, j, delta, bias, first, h, todo) && todo > 0 && delta > UINT_MAX
    ensures Overflows(L)
  {
    NextDelta(L, d, n, j, delta);
    hide Reached, InStep, DeltaAt, Stands, Fine;
  }

  /** While a hit is still ahead, something is left to do. */
  lemma TodoLeft(L: seq<nat>, tail: seq<nat>, d: Decoder, n: nat, j: nat, delta: nat, bias: nat, first: bool, h: nat, todo: nat)
    requires Sync(L, tail, d, n, j, delta, bias, first, h, todo) && n in L && n !in L[..j]
    ensures todo > 0
  {
    hide Reached, Stands, Fine;
    PlacedAll(L, |L|, n, j);
    var x :| 0 <= x < |L| && L[x] == n;
    assert forall y :: 0 <= y < j ==> L[..j][y] != n && L[..j][y] == L[y];
    assert !Done(L[x], x, n, j);
  }

  /** The scan for one code point `n`: count the smaller ones, emit a delta for each hit. */
  method Scan(L: seq<nat>, out: seq<nat>, cap: nat, n: nat, delta0: nat, bias0: nat, first0: bool, h0: nat, todo0: nat,
              ghost full0: seq<nat>, ghost tail0: seq<nat>, ghost d0: Decoder)
    returns (ok: bool, r: seq<nat>, delta: nat, bias: nat, first: bool, h: nat, todo: nat,
             ghost tail: seq<nat>, ghost d: Decoder)
    requires Label(L) && n in L && delta0 <= UINT_MAX && out == Cut(full0 + tail0, cap)
    requires Sync(L, tail0, d0, n, 0, delta0, bias0, first0, h0, todo0)
    ensures !ok ==> Overflows(L)
    ensures ok ==> Sync(L, tail, d, n, |L|, delta, bias, first, h, todo)
    ensures ok ==> todo < todo0 && delta < UINT_MAX && r == Cut(full0 + tail, cap)
  {
    hide Sync, Overflows, Cut, Placed, VarInt;
    ok, r, delta, bias, first, h, todo, tail, d := true, out, delta0, bias0, first0, h0, todo0, tail0, d0;
    ghost var hit := false;
    assert n !in L[..0];
    for j := 0 to |L|
      invariant Sync(L, tail, d, n, j, delta, bias, first, h, todo)
      invariant r == Cut(full0 + tail, cap)
      invariant delta <= UINT_MAX && (hit ==> delta <= j && todo < todo0) && todo <= todo0
      invariant hit || n !in L[..j]
    {
      assert L[..j + 1] == L[..j] + [L[j]];
      if L[j] != n { SyncSkip(L, tail, d, n, j, delta, bias, first, h, todo); }
      if L[j] < n {
        delta := (delta + 1) % (UINT_MAX + 1);
        if delta == 0 {
          TodoLeft(L, tail, d, n, j + 1, UINT_MAX + 1, bias, first, h, todo);
          OverflowHere(L, tail, d, n, j + 1, UINT_MAX + 1, bias, first, h, todo);
          return false, r, delta, bias, first, h, todo, tail, d;
        }
      }
      if L[j] != n { continue; }
      SyncEmit(L, tail, d, n, j, delta, bias, first, h, todo);
      r := PutVarInt(r, cap, delta, bias, full0 + tail);
      ghost var digits := VarInt(delta, 36, bias);
      assert full0 + tail + digits == full0 + (tail + digits);
      tail, d := tail + digits, DecodeStep(d, d.i + delta);
      h := h + 1;
      bias := NextBias(delta, h, first);
      first := false;
      delta := 0;
      todo := todo - 1;
      hit := true;
    }
    assert L[..|L|] == L;
  }

  /** Something is left to do exactly while a code point at or above n is there. */
  lemma TodoAbove(L: seq<nat>, tail: seq<nat>, d: Decoder, n: nat, delta: nat, bias: nat, first: bool, h: nat, todo: nat)
    requires Sync(L, tail, d, n, 0, delta, bias, first, h, todo)
    ensures todo > 0 ==> exists x :: 0 <= x < |L| && n <= L[x]
    ensures todo == 0 ==> d.output == L && !Overflows(L)
  {
    hide Reached, Stands, DeltaAt;
    forall x: nat, delta: nat | DeltaAt(L, x, delta) ensures x < |L| { AtPoint(L, x, delta); }
    PlacedAll(L, |L|, n, 0);
    assert L[..|L|] == L;
    if todo > 0 {
      var x :| 0 <= x < |L| && !Done(L[x], x, n, 0);
    }
  }

  lemma SyncStart(L: seq<nat>, h: nat, todo: nat)
    requires h == |Ascii(L)| && h + todo == |L|
    ensures Sync(L, [], Start(L), 128, 0, 0, 72, true, h, todo)
  {
    hide DeltaAt;
    forall x: nat, delta: nat | DeltaAt(L, x, delta) ensures x < |L| && 128 <= L[x] { AtPoint(L, x, delta); }
  }

  /** `if (x > ~delta / y) return UV_E2BIG; delta += x * y;` */
  method AddScaled(delta: nat, x: nat, y: nat) returns (over: bool, sum: nat)
    requires y > 0 && delta <= UINT_MAX
    ensures over <==> Scaled(delta, x, y) > UINT_MAX
    ensures !over ==> sum == Scaled(delta, x, y)
  {
    ghost var a, q := UINT_MAX - delta, (UINT_MAX - delta) / y;
    assert a == y * q + a % y;
    over, sum := x > (UINT_MAX - delta) / y, delta;
    if over {
      assert x * y >= (q + 1) * y;
    } else {
      assert x * y <= q * y;
      sum := delta + x * y;
    }
  }

  const PREFIX: seq<nat> := [120, 110, 45, 45]

  predicate AllAscii(L: seq<nat>) { forall x :: 0 <= x < |L| ==> L[x] < 128 }

  /** An ASCII label stands for itself, any other for what its decoding gives. */
  predicate StandsFor(full: seq<nat>, L: seq<nat>) {
    if AllAscii(L) then full == L
    else PREFIX <= full && Decode(full[|PREFIX|..]) == Some(L)
  }

  lemma AsciiOnly(L: seq<nat>)
    ensures |Ascii(L)| == |L| <==> AllAscii(L)
    ensures AllAscii(L) ==> Ascii(L) == L && StandsFor(L, L) && !Overflows(L)
  {
    PlacedAll(L, |L|, 128, 0);
    assert L[..|L|] == L;
    assert forall x :: 0 <= x < |L| ==> (Done(L[x], x, 128, 0) <==> L[x] < 128);
  }

  lemma Finished(L: seq<nat>, tail: seq<nat>, d: Decoder)
    requires Reached(L, tail, d) && d.output == L && !AllAscii(L)
    ensures StandsFor(PREFIX + Text(L, tail), L)
  {
    hide Reached, Decode;
    TextDecodes(L, tail, d);
    assert (PREFIX + Text(L, tail))[|PREFIX|..] == Text(L, tail);
  }

  /** What is written before the first delta. */
  method PutHead(L: seq<nat>, cap: nat, h: nat, todo: nat) returns (out: seq<nat>)
    requires Label(L) && h == |Ascii(L)| && h + todo == |L|
    ensures todo == 0 ==> out == Cut(Ascii(L), cap)
    ensures todo > 0 ==> out == Cut(PREFIX + Text(L, []), cap)
  {
    out := [];
    ghost var full: seq<nat> := [];
    if todo > 0 {
      PushCut([], cap, 120);
      out := Push(out, cap, 120);
      PushCut([120], cap, 110);
      out := Push(out, cap, 110);
      PushCut([120, 110], cap, 45);
      out := Push(out, cap, 45);
      PushCut([120, 110, 45], cap, 45);
      out := Push(out, cap, 45);
      full := PREFIX;
    }
    out := CopyAscii(L, h, out, cap, full);
    if todo == 0 {
      assert full + Ascii(L) == Ascii(L);
      return;
    }
    if h > 0 {
      PushCut(full + Ascii(L), cap, DELIMITER);
      out := Push(out, cap, DELIMITER);
      assert full + Ascii(L) + [DELIMITER] == full + Text(L, []);
    } else {
      assert full + Ascii(L) == full + Text(L, []);
    }
  }

  /** uv__idna_toascii_label, writing to a buffer with room for `cap` bytes. */
  method ToAsciiLabel(L: seq<nat>, cap: nat) returns (rc: Rc, out: seq<nat>)
    requires Label(L)
    ensures rc.Invalid? <==> UINT_MAX in L
    ensures rc.TooBig? <==> UINT_MAX !in L && Overflows(L)
    ensures rc.Length? ==> exists full :: StandsFor(full, L) && out == Cut(full, cap)
    ensures rc.Length? ==> rc.n == if AllAscii(L) then |L| else 0
  {
    hide Sync, Overflows, Cut, Placed, Text, StandsFor, AllAscii, Reached, Scaled;
    var bad, h: nat, todo: nat := Count(L);
    if bad { return Invalid, []; }
    AsciiOnly(L);
    out := PutHead(L, cap, h, todo);
    if todo == 0 {
      assert StandsFor(L, L) && AllAscii(L);
      return Length(h), out;
    }
    var n: nat, bias: nat, delta: nat, first := 128, 72, 0, true;
    ghost var tail: seq<nat>, d := [], Start(L);
    SyncStart(L, h, todo);
    ghost var head := PREFIX + Text(L, []);
    assert head + [] == head;
    while todo > 0
      invariant Sync(L, tail, d, n, 0, delta, bias, first, h, todo)
      invariant delta <= UINT_MAX && out == Cut(head + tail, cap)
      decreases todo
    {
      TodoAbove(L, tail, d, n, delta, bias, first, h, todo);
      var m := NextPoint(L, n);
      SyncAdvance(L, tail, d, n, delta, bias, first, h, todo, m);
      var over, sum := AddScaled(delta, m - n, h + 1);
      if over {
        OverflowHere(L, tail, d, m, 0, Scaled(delta, m - n, h + 1), bias, first, h, todo);
        return TooBig, out;
      }
      delta, n := sum, m;
      var ok;
      ok, out, delta, bias, first, h, todo, tail, d := Scan(L, out, cap, n, delta, bias, first, h, todo, head, tail, d);
      if !ok { return TooBig, out; }
      SyncNext(L, tail, d, n, delta, bias, first, h, todo);
      delta, n := delta + 1, n + 1;
    }
    TodoAbove(L, tail, d, n, delta, bias, first, h, todo);
    EndOfLabel(L, tail, d, n, delta, bias, first, h);
    return Length(0), out;
  }

  lemma EndOfLabel(L: seq<nat>, tail: seq<nat>, d: Decoder, n: nat, delta: nat, bias: nat, first: bool, h: nat)
    requires Sync(L, tail, d, n, 0, delta, bias, first, h, 0) && !AllAscii(L) && d.output == L
    ensures StandsFor(PREFIX + Text(L, []) + tail, L)
  {
    hide Reached, InStep, StandsFor;
    Finished(L, tail, d);
    assert PREFIX + Text(L, []) + tail == PREFIX + Text(L, tail);
  }
}
