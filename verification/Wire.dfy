/**
 The primitive encodings of nanopb: varints in 64 and 32 bits, zigzag, and
 little-endian words, as functions on byte strings, with their round trips.
 */
module Wire {
  import opened Bytes

  const TWO31: int := 0x8000_0000
  const TWO32: int := 0x1_0000_0000
  const TWO63: int := 0x8000_0000_0000_0000
  const TWO64: int := 0x1_0000_0000_0000_0000

  /** A value and what is left of the stream after it. */
  datatype Read<+T> = Read(value: T, rest: Bytes)

  // ------------------------------------------------------------ machine words

  function Pow2(k: nat): (p: nat)
    ensures p > 0
  {
    if k == 0 then 1 else 2 * Pow2(k - 1)
  }

  /** Bitwise or. */
  function Or(a: nat, b: nat): nat {
    if a == 0 then b
    else if b == 0 then a
    else (if a % 2 == 1 || b % 2 == 1 then 1 else 0) + 2 * Or(a / 2, b / 2)
  }

  /** Or-ing in bits above the ones already there adds them. */
  lemma {:induction false} OrAbove(a: nat, b: nat, k: nat)
    requires a < Pow2(k)
    ensures b * Pow2(k) >= 0
    ensures Or(a, b * Pow2(k)) == a + b * Pow2(k)
  {
    if k > 0 && a > 0 && b > 0 {
      var c := b * Pow2(k - 1);
      assert b * Pow2(k) == 2 * c && c > 0;
      OrAbove(a / 2, b, k - 1);
    }
  }

  lemma {:induction false} Pow2Sum(i: nat, j: nat)
    ensures Pow2(i + j) == Pow2(i) * Pow2(j)
  {
    if j > 0 { Pow2Sum(i, j - 1); }
  }

  lemma {:induction false} Pow2Grows(i: nat, j: nat)
    requires i <= j
    ensures Pow2(i) <= Pow2(j)
  {
    if i < j { Pow2Grows(i, j - 1); }
  }

  lemma Pow2Words()
    ensures Pow2(7) == 128 && Pow2(14) == 0x4000 && Pow2(21) == 0x20_0000 && Pow2(28) == 0x1000_0000
    ensures Pow2(32) == TWO32 && Pow2(35) == 0x8_0000_0000 && Pow2(64) == TWO64
  {
    assert Pow2(4) == 16;
    Pow2Sum(4, 3);
    Pow2Sum(7, 7);
    Pow2Sum(14, 7);
    Pow2Sum(21, 7);
    Pow2Sum(28, 4);
    Pow2Sum(28, 7);
    Pow2Sum(32, 32);
  }

  /** A two's complement word of `modulus` values read as signed. */
  function Signed(u: nat, modulus: nat): int {
    if 2 * u >= modulus then u - modulus else u
  }

  function Unsigned64(i: int): (u: nat)
    requires -TWO63 <= i < TWO63
    ensures u < TWO64 && Signed(u, TWO64) == i
  {
    if i < 0 then i + TWO64 else i
  }

  // ------------------------------------------------------------------ varints

  function Varint(n: nat): Bytes {
    if n < 128 then [n] else [128 + n % 128] + Varint(n / 128)
  }

  /** pb_decode_varint, with k bytes read into acc. */
  function Decode64(input: Bytes, k: nat, acc: nat): (r: Option<Read<nat>>)
    ensures r.Some? ==> |r.value.rest| < |input|
    decreases |input|
  {
    if k >= 10 || input == [] then None
    else
      var acc' := Or(acc, input[0] % 128 * Pow2(7 * k) % TWO64);
      if input[0] >= 128 then Decode64(input[1..], k + 1, acc') else Some(Read(acc', input[1..]))
  }

  lemma ModSmall(y: nat, m: nat)
    requires y < m
    ensures y % m == y
  {
  }

  lemma Below(x: nat, p: nat, acc: nat)
    requires x < 128 && acc < p
    ensures 0 <= x * p && acc + x * p < 128 * p
  {
    assert (x + 1) * p <= 128 * p;
  }

  lemma Pow2Byte(k: nat)
    ensures Pow2(7 * (k + 1)) == 128 * Pow2(7 * k)
  {
    Pow2Sum(7 * k, 7);
    Pow2Words();
  }

  /** One byte more: its seven bits land above the ones read. */
  lemma TakeBits(x: nat, acc: nat, k: nat, modulus: nat)
    requires acc < Pow2(7 * k) && x < 128 && 0 <= x * Pow2(7 * k) < modulus
    ensures Or(acc, x * Pow2(7 * k) % modulus) == acc + x * Pow2(7 * k)
    ensures acc + x * Pow2(7 * k) < Pow2(7 * (k + 1)) == 128 * Pow2(7 * k)
  {
    hide Or, Pow2;
    OrAbove(acc, x, 7 * k);
    Pow2Byte(k);
    Below(x, Pow2(7 * k), acc);
    ModSmall(x * Pow2(7 * k), modulus);
  }

  lemma SplitByte(n: nat, p: nat)
    ensures n % 128 * p + n / 128 * (128 * p) == n * p
    ensures n / 128 * (128 * p) >= 0 && n % 128 * p >= 0
  {
    var q, r := n / 128, n % 128;
    assert n == 128 * q + r;
    assert (128 * q + r) * p == q * (128 * p) + r * p;
  }

  lemma KBound(k: nat, n: nat)
    requires n >= 1 && n * Pow2(7 * k) < TWO64
    ensures k < 10
  {
    Pow2Words();
    assert n * Pow2(7 * k) >= Pow2(7 * k);
    if k >= 10 { Pow2Grows(64, 7 * k); }
  }

  lemma {:induction false} Varint64Decodes(n: nat, k: nat, acc: nat, rest: Bytes)
    requires k < 10 && acc < Pow2(7 * k)
    requires acc + n * Pow2(7 * k) < TWO64
    ensures Decode64(Varint(n) + rest, k, acc) == Some(Read(acc + n * Pow2(7 * k), rest))
    decreases n
  {
    hide Or, Pow2;
    var p, input := Pow2(7 * k), Varint(n) + rest;
    SplitByte(n, p);
    TakeBits(n % 128, acc, k, TWO64);
    if n < 128 {
      assert input[0] % 128 == n && input[1..] == rest;
    } else {
      assert input[0] % 128 == n % 128 && input[1..] == Varint(n / 128) + rest;
      KBound(k + 1, n / 128);
      Varint64Decodes(n / 128, k + 1, acc + n % 128 * p, rest);
    }
  }

  /** Every 64-bit value decodes to itself and leaves the rest of the stream. */
  lemma VarintRoundTrip64(n: nat, rest: Bytes)
    requires n < TWO64
    ensures Decode64(Varint(n) + rest, 0, 0) == Some(Read(n, rest))
  {
    Varint64Decodes(n, 0, 0, rest);
  }

  lemma {:induction false} VarintLength(n: nat, k: nat)
    requires k > 0 && n < Pow2(7 * k)
    ensures 1 <= |Varint(n)| <= k
    decreases k
  {
    hide Pow2;
    Pow2Words();
    if n >= 128 {
      assert k > 1;
      Pow2Sum(7 * (k - 1), 7);
      VarintLength(n / 128, k - 1);
    }
  }

  lemma VarintAtMostTen(n: nat)
    requires n < TWO64
    ensures 1 <= |Varint(n)| <= 10
  {
    Pow2Words();
    Pow2Grows(64, 70);
    VarintLength(n, 10);
  }

  /** pb_decode_varint32_eof after the first byte. */
  function Decode32From(input: Bytes, bitpos: nat, result: nat): (r: Option<Read<nat>>)
    ensures r.Some? ==> |r.value.rest| < |input|
    decreases |input|
  {
    if input == [] then None
    else
      var b := input[0];
      if bitpos >= 32 && b % 128 != 0 && (result < TWO31 || b != (if bitpos < 63 then 255 else 1)) then None
      else
        var result' := if bitpos >= 32 then result else Or(result, b % 128 * Pow2(bitpos) % TWO32);
        var bitpos' := (bitpos + 7) % 256;
        if b >= 128 then Decode32From(input[1..], bitpos', result')
        else if bitpos' == 35 && b / 16 % 8 != 0 then None
        else Some(Read(result', input[1..]))
  }

  function Decode32(input: Bytes): (r: Option<Read<nat>>)
    ensures r.Some? ==> |r.value.rest| < |input|
  {
    if input == [] then None
    else if input[0] < 128 then Some(Read(input[0], input[1..]))
    else Decode32From(input[1..], 7, input[0] % 128)
  }

  lemma FewBitsLeft(n: nat, k: nat)
    requires k == 4 && n * Pow2(7 * k) < TWO32
    ensures n < 16
  {
    hide Pow2;
    Pow2Words();
  }

  /** One byte of Decode32From below bit 32, when another follows and when none does. */
  lemma Step32(input: Bytes, bitpos: nat, result: nat, sum: nat)
    requires input != [] && bitpos < 32 && Or(result, input[0] % 128 * Pow2(bitpos) % TWO32) == sum
    ensures input[0] >= 128 ==> Decode32From(input, bitpos, result) == Decode32From(input[1..], bitpos + 7, sum)
    ensures input[0] < 128 && (bitpos == 28 ==> input[0] < 16) ==> Decode32From(input, bitpos, result) == Some(Read(sum, input[1..]))
  {
    hide Or, Pow2;
  }

  lemma {:induction false} Varint32Decodes(n: nat, k: nat, acc: nat, rest: Bytes)
    requires 1 <= k <= 4 && acc < Pow2(7 * k)
    requires acc + n * Pow2(7 * k) < TWO32
    ensures Decode32From(Varint(n) + rest, 7 * k, acc) == Some(Read(acc + n * Pow2(7 * k), rest))
    decreases n
  {
    hide Or, Pow2, Decode32From;
    var p, input := Pow2(7 * k), Varint(n) + rest;
    if k == 4 { FewBitsLeft(n, k); }
    SplitByte(n, p);
    TakeBits(n % 128, acc, k, TWO32);
    assert input[0] % 128 == n % 128;
    Step32(input, 7 * k, acc, acc + n % 128 * p);
    if n < 128 {
      assert input[1..] == rest;
    } else {
      assert input[1..] == Varint(n / 128) + rest;
      Varint32Decodes(n / 128, k + 1, acc + n % 128 * p, rest);
    }
  }

  /** The 32-bit decoder returns every value below 2^32. */
  lemma VarintRoundTrip32(n: nat, rest: Bytes)
    requires n < TWO32
    ensures Decode32(Varint(n) + rest) == Some(Read(n, rest))
  {
    hide Pow2, Decode32From;
    var input := Varint(n) + rest;
    if n < 128 {
      assert input[0] == n && input[1..] == rest;
    } else {
      assert input[0] % 128 == n % 128 && input[1..] == Varint(n / 128) + rest;
      Pow2Words();
      Varint32Decodes(n / 128, 1, n % 128, rest);
    }
  }

  lemma SignBytes()
    ensures Varint(0x1FFF_FFFF) == [255, 255, 255, 255, 1]
  {
    assert Varint(0xFF) == [255, 1];
    assert Varint(0x7FFF) == [255, 255, 1];
    assert Varint(0x3F_FFFF) == [255, 255, 255, 1];
  }

  /** Four 0xFF and a 0x01 after a word with its top bit set only extend the sign. */
  lemma SignTail(result: nat, rest: Bytes)
    requires TWO31 <= result
    ensures Decode32From([255, 255, 255, 255, 1] + rest, 35, result) == Some(Read(result, rest))
  {
    hide Or, Pow2;
    var s: Bytes := [255, 255, 255, 255, 1] + rest;
    assert s[1..] == [255, 255, 255, 1] + rest && s[1..][1..] == [255, 255, 1] + rest;
    assert ([255, 255, 1] + rest)[1..] == [255, 1] + rest;
    assert ([255, 1] + rest)[1..] == [1] + rest && ([1] + rest)[1..] == rest;
    assert Decode32From([1] + rest, 63, result) == Some(Read(result, rest));
    assert Decode32From([255, 1] + rest, 56, result) == Some(Read(result, rest));
    assert Decode32From([255, 255, 1] + rest, 49, result) == Some(Read(result, rest));
  }

  /** The fifth byte of a sign-extended int32 and what follows it. */
  lemma FifthByte(u: nat, n: nat, acc: nat)
    requires TWO64 - TWO31 <= u < TWO64 && acc < 0x1000_0000 && acc + n * 0x1000_0000 == u
    ensures n >= 128 && n / 128 == 0x1FFF_FFFF
    ensures n % 128 * 0x1000_0000 % TWO32 == n % 16 * 0x1000_0000
    ensures acc + n % 16 * 0x1000_0000 == u % TWO32 >= TWO31
  {
    var h := n - 0xF_FFFF_FFF0;
    assert 8 <= h < 16;
    assert u == acc + h * 0x1000_0000 + 0xFFFF_FFFF * TWO32;
    assert n == 128 * 0x1FFF_FFFF + (h + 112);
    assert n % 128 == h + 112 && n % 16 == h;
    assert (h + 112) * 0x1000_0000 == h * 0x1000_0000 + 7 * TWO32;
  }

  lemma EarlyByte(u: nat, n: nat, acc: nat, k: nat)
    requires TWO64 - TWO31 <= u < TWO64 && 1 <= k <= 3
    requires acc < Pow2(7 * k) && acc + n * Pow2(7 * k) == u
    ensures n >= 128 && 0 <= n % 128 * Pow2(7 * k) < TWO32
  {
    hide Pow2;
    Pow2Words();
    Below(n % 128, Pow2(7 * k), acc);
  }

  lemma {:induction false} SignExtendedFrom(u: nat, n: nat, acc: nat, k: nat, rest: Bytes)
    requires TWO64 - TWO31 <= u < TWO64 && 1 <= k <= 4
    requires acc < Pow2(7 * k) && acc + n * Pow2(7 * k) == u
    ensures Decode32From(Varint(n) + rest, 7 * k, acc) == Some(Read(u % TWO32, rest))
    decreases 4 - k
  {
    hide Or, Pow2, Decode32From;
    var input := Varint(n) + rest;
    if k < 4 {
      var p := Pow2(7 * k);
      EarlyByte(u, n, acc, k);
      assert input[0] % 128 == n % 128 && input[1..] == Varint(n / 128) + rest;
      TakeBits(n % 128, acc, k, TWO32);
      SplitByte(n, p);
      Step32(input, 7 * k, acc, acc + n % 128 * p);
      SignExtendedFrom(u, n / 128, acc + n % 128 * p, k + 1, rest);
    } else {
      Pow2Words();
      FifthByte(u, n, acc);
      assert input[0] % 128 == n % 128 && input[1..] == Varint(n / 128) + rest;
      TakeBits(n % 16, acc, k, TWO32);
      Step32(input, 28, acc, u % TWO32);
      SignBytes();
      SignTail(u % TWO32, rest);
    }
  }

  /** The 32-bit decoder returns the low word of every sign-extended int32. */
  lemma SignExtended32(i: int, rest: Bytes)
    requires -TWO31 <= i < 0
    ensures Decode32(Varint(Unsigned64(i)) + rest) == Some(Read(i + TWO32, rest))
  {
    hide Pow2, Decode32From;
    var u := Unsigned64(i);
    var input := Varint(u) + rest;
    assert input[0] % 128 == u % 128 && input[1..] == Varint(u / 128) + rest;
    Pow2Words();
    SignExtendedFrom(u, u / 128, u % 128, 1, rest);
  }

  // ------------------------------------------------------------------- zigzag

  /** pb_encode_svarint: `~(value << 1)` for a negative value, in 64 bits. */
  function Zigzag(i: int): (u: nat)
    requires -TWO63 <= i < TWO63
    ensures u < TWO64
    ensures u == if i < 0 then -2 * i - 1 else 2 * i
  {
    var shifted := Unsigned64(i) * 2 % TWO64;
    if i < 0 then TWO64 - 1 - shifted else shifted
  }

  /** pb_decode_svarint. */
  function Unzigzag(u: nat): (i: int)
    requires u < TWO64
    ensures -TWO63 <= i < TWO63
  {
    Signed(if u % 2 == 1 then TWO64 - 1 - u / 2 else u / 2, TWO64)
  }

  lemma ZigzagInverse(i: int, u: nat)
    requires -TWO63 <= i < TWO63 && u < TWO64
    ensures Unzigzag(Zigzag(i)) == i
    ensures Zigzag(Unzigzag(u)) == u
  {
    assert Zigzag(i) / 2 == if i < 0 then -i - 1 else i;
  }

  // ------------------------------------------------------- fixed-width words

  function LittleEndian(n: nat, width: nat): (s: Bytes)
    ensures |s| == width
  {
    if width == 0 then [] else [n % 256] + LittleEndian(n / 256, width - 1)
  }

  function FromLittleEndian(s: Bytes): nat {
    if s == [] then 0 else s[0] + 256 * FromLittleEndian(s[1..])
  }

  lemma {:induction false} LittleEndianInverse(n: nat, width: nat)
    requires n < Pow2(8 * width)
    ensures FromLittleEndian(LittleEndian(n, width)) == n
    decreases width
  {
    if width > 0 {
      Pow2Sum(8 * (width - 1), 8);
      assert Pow2(8) == 256 by { assert Pow2(4) == 16; Pow2Sum(4, 4); }
      LittleEndianInverse(n / 256, width - 1);
      assert LittleEndian(n, width)[1..] == LittleEndian(n / 256, width - 1);
    }
  }

  lemma {:induction false} FromLittleEndianBelow(s: Bytes)
    ensures FromLittleEndian(s) < Pow2(8 * |s|)
  {
    if s != [] {
      FromLittleEndianBelow(s[1..]);
      Pow2Sum(8 * (|s| - 1), 8);
      assert Pow2(8) == 256 by { assert Pow2(4) == 16; Pow2Sum(4, 4); }
    }
  }

  lemma {:induction false} LittleEndianOf(s: Bytes)
    ensures LittleEndian(FromLittleEndian(s), |s|) == s
  {
    if s != [] {
      var n := FromLittleEndian(s);
      LittleEndianOf(s[1..]);
      assert n % 256 == s[0] && n / 256 == FromLittleEndian(s[1..]);
      assert s == [s[0]] + s[1..];
    }
  }
}
