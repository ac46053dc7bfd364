/**
 inet.c: printing and parsing of IPv4 and IPv6 addresses (sections 2.2 of RFC
 4291 and 4.2 of RFC 5952).
 */
module Inet {
  import opened Bytes

  // ------------------------------------------------------------------- digits

  function HexChar(d: nat): char
    requires d < 16
  {
    "0123456789abcdef"[d]
  }

  /** strchr in xdigits_l, then in xdigits_u. */
  function HexValue(c: char): Option<nat> {
    if '0' <= c <= '9' then Some(c as nat - '0' as nat)
    else if 'a' <= c <= 'f' then Some(c as nat - 'a' as nat + 10)
    else if 'A' <= c <= 'F' then Some(c as nat - 'A' as nat + 10)
    else None
  }

  /** Digits of either case. */
  lemma HexValueIff(c: char, d: nat)
    ensures HexValue(c) == Some(d) <==> d < 16 && ("0123456789abcdef"[d] == c || "0123456789ABCDEF"[d] == c)
  {
  }

  function DecValue(c: char): Option<nat> {
    if '0' <= c <= '9' then Some(c as nat - '0' as nat) else None
  }

  lemma HexCharValue(d: nat)
    requires d < 16
    ensures HexValue(HexChar(d)) == Some(d) && HexChar(d) != ':' && HexChar(d) != '.'
    ensures d < 10 ==> DecValue(HexChar(d)) == Some(d)
  {
  }

  function Value(ds: seq<nat>): nat {
    if ds == [] then 0 else Value(ds[..|ds| - 1]) * 16 + ds[|ds| - 1]
  }

  function Chars(ds: seq<nat>): (s: string)
    requires forall i :: 0 <= i < |ds| ==> ds[i] < 16
    ensures |s| == |ds|
  {
    seq(|ds|, i requires 0 <= i < |ds| => HexChar(ds[i]))
  }

  function Digits(w: nat): (ds: seq<nat>)
    requires w < 0x1_0000
    ensures 1 <= |ds| <= 4 && forall i :: 0 <= i < |ds| ==> ds[i] < 16
  {
    if w < 0x10 then [w]
    else if w < 0x100 then [w / 0x10, w % 0x10]
    else if w < 0x1000 then [w / 0x100, w / 0x10 % 0x10, w % 0x10]
    else [w / 0x1000, w / 0x100 % 0x10, w / 0x10 % 0x10, w % 0x10]
  }

  /** "%x" of a 16-bit word. */
  function Hex(w: nat): (s: string)
    requires w < 0x1_0000
    ensures 1 <= |s| <= 4
  {
    Chars(Digits(w))
  }

  /** "%u" of a byte. */
  function Dec(b: Byte): (s: string)
    ensures 1 <= |s| <= 3
  {
    if b < 10 then [HexChar(b)]
    else if b < 100 then [HexChar(b / 10), HexChar(b % 10)]
    else [HexChar(b / 100), HexChar(b / 10 % 10), HexChar(b % 10)]
  }

  // --------------------------------------------------------------------- IPv4

  /** "%u.%u.%u.%u", which is what inet_ntop4 prints. */
  function Format4(a: Bytes): (s: string)
    requires |a| == 4
    ensures 7 <= |s| <= 15
  {
    Dec(a[0]) + "." + Dec(a[1]) + "." + Dec(a[2]) + "." + Dec(a[3])
  }

  /** The loop of inet_pton4: octets so far, the last one still growing if `saw`. */
  function Scan4(src: string, octets: Bytes, saw: bool): Option<Bytes>
  {
    if src == "" then if |octets| < 4 then None else Some(octets)
    else
      var d := DecValue(src[0]);
      if d.Some? then
        if !saw then
          if |octets| + 1 > 4 then None else Scan4(src[1..], octets + [d.value], true)
        else if octets == [] || octets[|octets| - 1] == 0 || octets[|octets| - 1] * 10 + d.value > 255 then None
        else Scan4(src[1..], octets[|octets| - 1 := octets[|octets| - 1] * 10 + d.value], true)
      else if src[0] == '.' && saw then
        if |octets| == 4 then None else Scan4(src[1..], octets, false)
      else None
  }

  function Parse4(src: string): Option<Bytes> { Scan4(src, [], false) }

  lemma ScanDigit(c: char, rest: string, octets: Bytes, d: nat)
    requires DecValue(c) == Some(d)
    ensures |octets| < 4 ==> Scan4([c] + rest, octets, false) == Scan4(rest, octets + [d], true)
    ensures octets != [] && 0 < octets[|octets| - 1] && octets[|octets| - 1] * 10 + d <= 255 ==>
              Scan4([c] + rest, octets, true) == Scan4(rest, octets[|octets| - 1 := octets[|octets| - 1] * 10 + d], true)
  {
    assert ([c] + rest)[1..] == rest;
  }

  lemma ScanOctet(b: Byte, rest: string, octets: Bytes)
    requires |octets| < 4
    ensures Scan4(Dec(b) + rest, octets, false) == Scan4(rest, octets + [b], true)
  {
    if b < 10 {
      hide Scan4, HexChar;
      HexCharValue(b);
      ScanDigit(HexChar(b), rest, octets, b);
    } else if b < 100 {
      ScanTwo(b, rest, octets);
    } else {
      ScanThree(b, rest, octets);
    }
  }

  lemma ScanTwo(b: Byte, rest: string, octets: Bytes)
    requires |octets| < 4 && 10 <= b < 100
    ensures Scan4(Dec(b) + rest, octets, false) == Scan4(rest, octets + [b], true)
  {
    hide Scan4, HexChar;
    var s := [HexChar(b % 10)] + rest;
    assert Dec(b) + rest == [HexChar(b / 10)] + s;
    HexCharValue(b / 10);
    HexCharValue(b % 10);
    ScanDigit(HexChar(b / 10), s, octets, b / 10);
    ScanDigit(HexChar(b % 10), rest, octets + [b / 10], b % 10);
    assert (octets + [b / 10])[|octets| := b] == octets + [b];
  }

  lemma ScanThree(b: Byte, rest: string, octets: Bytes)
    requires |octets| < 4 && 100 <= b
    ensures Scan4(Dec(b) + rest, octets, false) == Scan4(rest, octets + [b], true)
  {
    hide Scan4, HexChar;
    var n := |octets|;
    var s := [HexChar(b % 10)] + rest;
    var t := [HexChar(b / 10 % 10)] + s;
    assert Dec(b) + rest == [HexChar(b / 100)] + t;
    HexCharValue(b / 100);
    HexCharValue(b / 10 % 10);
    HexCharValue(b % 10);
    ScanDigit(HexChar(b / 100), t, octets, b / 100);
    ScanDigit(HexChar(b / 10 % 10), s, octets + [b / 100], b / 10 % 10);
    assert (octets + [b / 100])[n := b / 10] == octets + [b / 10];
    ScanDigit(HexChar(b % 10), rest, octets + [b / 10], b % 10);
    assert (octets + [b / 10])[n := b] == octets + [b];
  }

  lemma ScanDot(rest: string, octets: Bytes)
    requires |octets| < 4
    ensures Scan4("." + rest, octets, true) == Scan4(rest, octets, false)
  {
    assert ("." + rest)[1..] == rest;
  }

  /** inet_pton4 reads back what inet_ntop4 prints. */
  lemma RoundTrip4(a: Bytes)
    requires |a| == 4
    ensures Parse4(Format4(a)) == Some(a)
  {
    hide Dec;
    var s3 := Dec(a[3]) + "";
    var s2 := Dec(a[2]) + ("." + s3);
    var s1 := Dec(a[1]) + ("." + s2);
    assert Format4(a) == Dec(a[0]) + ("." + s1);
    ScanOctet(a[0], "." + s1, []);
    ScanDot(s1, [a[0]]);
    ScanOctet(a[1], "." + s2, [a[0]]);
    ScanDot(s2, [a[0], a[1]]);
    ScanOctet(a[2], "." + s3, [a[0], a[1]]);
    ScanDot(s3, [a[0], a[1], a[2]]);
    ScanOctet(a[3], "", [a[0], a[1], a[2]]);
    assert [] + [a[0]] == [a[0]] && [a[0]] + [a[1]] == [a[0], a[1]] && [a[0], a[1]] + [a[2]] == [a[0], a[1], a[2]];
    assert [a[0], a[1], a[2]] + [a[3]] == a;
  }

  // -------------------------------------------------------------- IPv6 parsing

  function Word(val: nat): Bytes
    requires val < 0x1_0000
  {
    [val / 256, val % 256]
  }

  /** What inet_pton6 has when it stops reading: the bytes written, and where the "::" was. */
  datatype Scanned = Scanned(out: Bytes, colon: Option<nat>)

  /**
   The loop of inet_pton6. `tok` is the text from the start of the current
   token, for the case that it turns out to be an IPv4 address.
   */
  function Scan6(src: string, tok: string, out: Bytes, colon: Option<nat>, seen: nat, val: nat): Option<Scanned>
    requires seen <= 4 && val < Pow16(seen)
    decreases |src|
  {
    if src == "" then
      if seen == 0 then Some(Scanned(out, colon))
      else if |out| + 2 > 16 then None
      else (Pow16Small(seen); Some(Scanned(out + Word(val), colon)))
    else
      var d := HexValue(src[0]);
      if d.Some? then
        if seen + 1 > 4 then None else Scan6(src[1..], tok, out, colon, seen + 1, val * 16 + d.value)
      else if src[0] == ':' then
        if seen == 0 then
          if colon.Some? then None else Scan6(src[1..], src[1..], out, Some(|out|), 0, 0)
        else if |src| == 1 || |out| + 2 > 16 then None
        else (Pow16Small(seen); Scan6(src[1..], src[1..], out + Word(val), colon, 0, 0))
      else if src[0] == '.' && |out| + 4 <= 16 then
        var v4 := Parse4(tok);
        if v4.None? then None else Some(Scanned(out + v4.value, colon))
      else None
  }

  function Pow16(n: nat): nat { if n == 0 then 1 else 16 * Pow16(n - 1) }

  lemma Pow16Small(n: nat)
    requires n <= 4
    ensures Pow16(n) <= 0x1_0000
  {
    assert Pow16(1) == 16 && Pow16(2) == 256;
    assert Pow16(4) == 16 * 16 * Pow16(2);
  }

  /** Fill the gap of the "::". */
  function Spread(r: Scanned): Option<Bytes> {
    if r.colon.Some? && r.colon.value <= |r.out| then
      if |r.out| >= 16 then None
      else Some(r.out[..r.colon.value] + Zeros(16 - |r.out|) + r.out[r.colon.value..])
    else if |r.out| != 16 then None
    else Some(r.out)
  }

  /** inet_pton6. */
  function Parse6(src: string): Option<Bytes> {
    if src != "" && src[0] == ':' && (|src| == 1 || src[1] != ':') then None
    else
      var start := if src != "" && src[0] == ':' then src[1..] else src;
      var r := Scan6(start, start, [], None, 0, 0);
      if r.None? then None else Spread(r.value)
  }

  lemma ScanHexDigit(c: char, rest: string, tok: string, out: Bytes, colon: Option<nat>, seen: nat, val: nat, d: nat)
    requires seen < 4 && val < Pow16(seen) && HexValue(c) == Some(d) && d < 16
    ensures val * 16 + d < Pow16(seen + 1)
    ensures Scan6([c] + rest, tok, out, colon, seen, val) == Scan6(rest, tok, out, colon, seen + 1, val * 16 + d)
  {
    assert ([c] + rest)[1..] == rest;
  }

  /** Up to four digits, the highest first. */
  lemma ScanDigits(ds: seq<nat>, rest: string, tok: string, out: Bytes, colon: Option<nat>)
    requires 1 <= |ds| <= 4 && forall i :: 0 <= i < |ds| ==> ds[i] < 16
    ensures Value(ds) < Pow16(|ds|)
    ensures Scan6(Chars(ds) + rest, tok, out, colon, 0, 0) == Scan6(rest, tok, out, colon, |ds|, Value(ds))
  {
    hide Scan6, HexChar, HexValue, Pow16;
    PowOne();
    var n := |ds| - 1;
    HexCharValue(ds[n]);
    if n == 0 {
      assert Chars(ds) + rest == [HexChar(ds[0])] + rest;
      ScanHexDigit(HexChar(ds[0]), rest, tok, out, colon, 0, 0, ds[0]);
    } else {
      var rest' := [HexChar(ds[n])] + rest;
      assert Chars(ds) + rest == Chars(ds[..n]) + rest';
      ScanDigits(ds[..n], rest', tok, out, colon);
      ScanHexDigit(HexChar(ds[n]), rest, tok, out, colon, n, Value(ds[..n]), ds[n]);
    }
  }

  lemma DigitsValue(w: nat)
    requires w < 0x1_0000
    ensures Value(Digits(w)) == w
    decreases w
  {
    var ds := Digits(w);
    assert Value([]) == 0;
    if |ds| > 1 {
      DigitsValue(w / 0x10);
      assert ds[..|ds| - 1] == Digits(w / 0x10);
    } else {
      assert ds[..0] == [];
    }
  }

  /** A hex word is read as the token it is. */
  lemma ScanWord(w: nat, rest: string, tok: string, out: Bytes, colon: Option<nat>)
    requires w < 0x1_0000
    ensures |Hex(w)| <= 4 && w < Pow16(|Hex(w)|)
    ensures Scan6(Hex(w) + rest, tok, out, colon, 0, 0) == Scan6(rest, tok, out, colon, |Hex(w)|, w)
  {
    hide Scan6, HexChar, HexValue, Pow16, Value;
    ScanDigits(Digits(w), rest, tok, out, colon);
    DigitsValue(w);
  }

  lemma PowOne()
    ensures Pow16(0) == 1
  {
  }

  /** A colon after a word closes it; a second colon marks the gap. */
  lemma ScanColon(rest: string, tok: string, out: Bytes, colon: Option<nat>, seen: nat, val: nat)
    requires seen <= 4 && val < Pow16(seen) && val < 0x1_0000
    ensures seen == 0 && colon.None? ==> Scan6(":" + rest, tok, out, colon, seen, val) == Scan6(rest, rest, out, Some(|out|), 0, 0)
    ensures seen > 0 && rest != "" && |out| <= 14 ==>
              Scan6(":" + rest, tok, out, colon, seen, val) == Scan6(rest, rest, out + Word(val), colon, 0, 0)
  {
    assert (":" + rest)[1..] == rest;
    PowOne();
  }

  /** An IPv4 address in the last token. */
  lemma ScanV4(a: Bytes, out: Bytes, colon: Option<nat>)
    requires |a| == 4 && |out| <= 12
    ensures Scan6(Format4(a), Format4(a), out, colon, 0, 0) == Some(Scanned(out + a, colon))
  {
    var rest := FormatHead(a);
    RoundTrip4(a);
    hide *;
    var seen, val := ScanDec(a[0], rest, Format4(a), out, colon);
    ScanDotV4(rest, Format4(a), out, colon, seen, val, a);
  }

  lemma FormatHead(a: Bytes) returns (rest: string)
    requires |a| == 4
    ensures rest != [] && rest[0] == '.' && Format4(a) == Dec(a[0]) + rest
  {
    hide Dec;
    rest := "." + Dec(a[1]) + "." + Dec(a[2]) + "." + Dec(a[3]);
  }

  /** Decimal digits are hex digits to inet_pton6 until the dot. */
  lemma ScanDec(b: Byte, rest: string, tok: string, out: Bytes, colon: Option<nat>) returns (seen: nat, val: nat)
    ensures seen <= 4 && val < Pow16(seen)
    ensures Scan6(Dec(b) + rest, tok, out, colon, 0, 0) == Scan6(rest, tok, out, colon, seen, val)
  {
    hide Scan6, HexChar, HexValue, Pow16;
    PowOne();
    var d0, d1, d2 := b % 10, b / 10 % 10, b / 100;
    HexCharValue(d0);
    HexCharValue(d1);
    HexCharValue(d2);
    var s0 := [HexChar(d0)] + rest;
    var s1 := [HexChar(d1)] + s0;
    if b < 10 {
      ScanHexDigit(HexChar(d0), rest, tok, out, colon, 0, 0, d0);
      seen, val := 1, d0;
    } else if b < 100 {
      assert Dec(b) + rest == s1;
      ScanHexDigit(HexChar(d1), s0, tok, out, colon, 0, 0, d1);
      ScanHexDigit(HexChar(d0), rest, tok, out, colon, 1, d1, d0);
      seen, val := 2, d1 * 16 + d0;
    } else {
      assert Dec(b) + rest == [HexChar(d2)] + s1;
      ScanHexDigit(HexChar(d2), s1, tok, out, colon, 0, 0, d2);
      ScanHexDigit(HexChar(d1), s0, tok, out, colon, 1, d2, d1);
      ScanHexDigit(HexChar(d0), rest, tok, out, colon, 2, d2 * 16 + d1, d0);
      seen, val := 3, (d2 * 16 + d1) * 16 + d0;
    }
  }

  lemma ScanDotV4(rest: string, tok: string, out: Bytes, colon: Option<nat>, seen: nat, val: nat, a: Bytes)
    requires seen <= 4 && val < Pow16(seen) && |rest| > 0 && rest[0] == '.' && |out| <= 12 && Parse4(tok) == Some(a)
    ensures Scan6(rest, tok, out, colon, seen, val) == Some(Scanned(out + a, colon))
  {
    hide Scan4;
  }

  // ------------------------------------------------------------- IPv6 printing

  predicate Address(a: Bytes) { |a| == 16 }

  function WordAt(a: Bytes, i: nat): (w: nat)
    requires Address(a) && i < 8
    ensures w < 0x1_0000
  {
    (a[2 * i] as int) * 256 + a[2 * i + 1]
  }

  /** A run of zero words to print as "::"; no run is base -1. */
  datatype Run = Run(base: int, len: nat)

  predicate In(r: Run, i: int) { r.base != -1 && r.base <= i < r.base + r.len }

  predicate ZeroWords(a: Bytes, b: nat, e: nat)
    requires Address(a) && e <= 8
  {
    forall k :: b <= k < e ==> WordAt(a, k) == 0
  }

  predicate ZeroRun(a: Bytes, r: Run)
    requires Address(a)
  {
    r.base == -1 || (0 <= r.base && 0 < r.len && r.base + r.len <= 8 && ZeroWords(a, r.base, r.base + r.len))
  }

  /** The longest run of at least two zero words, and the first of those. */
  predicate FirstLongest(a: Bytes, r: Run)
    requires Address(a)
  {
    && ZeroRun(a, r) && (r.base != -1 ==> r.len >= 2)
    && forall b: nat, e: nat :: b < e <= 8 && ZeroWords(a, b, e) ==>
         if r.base == -1 then e - b < 2 else e - b < r.len || (e - b == r.len && r.base <= b)
  }

  lemma FirstLongestUnique(a: Bytes, r: Run, t: Run)
    requires Address(a) && FirstLongest(a, r) && FirstLongest(a, t)
    ensures r.base == t.base && (r.base != -1 ==> r.len == t.len)
  {
    hide WordAt;
    if r.base != -1 { assert ZeroWords(a, r.base, r.base + r.len); }
    if t.base != -1 { assert ZeroWords(a, t.base, t.base + t.len); }
  }

  /** IPv4-compatible and IPv4-mapped addresses end in dotted decimal. */
  predicate Embeds4(a: Bytes, r: Run)
    requires Address(a)
  {
    r.base == 0 && (r.len == 6 || (r.len == 7 && WordAt(a, 7) != 1) || (r.len == 5 && WordAt(a, 5) == 0xFFFF))
  }

  /** What the printing loop adds from word i on. */
  function FormatFrom(a: Bytes, r: Run, i: nat): string
    requires Address(a) && i <= 8
    decreases 8 - i
  {
    if i == 8 then if r.base != -1 && r.base + r.len == 8 then ":" else ""
    else if In(r, i) then (if i == r.base then ":" else "") + FormatFrom(a, r, i + 1)
    else (if i != 0 then ":" else "") + FormatWord(a, r, i)
  }

  function FormatWord(a: Bytes, r: Run, i: nat): string
    requires Address(a) && i < 8
    decreases 8 - i, 0
  {
    if i == 6 && Embeds4(a, r) then Format4(a[12..16]) else Hex(WordAt(a, i)) + FormatFrom(a, r, i + 1)
  }

  /** The bytes of the words before i that are not in the run. */
  function Kept(a: Bytes, r: Run, i: nat): Bytes
    requires Address(a) && i <= 8 && ZeroRun(a, r)
  {
    if r.base == -1 || i <= r.base then a[..2 * i]
    else if i <= r.base + r.len then a[..2 * r.base]
    else a[..2 * r.base] + a[2 * (r.base + r.len)..2 * i]
  }

  lemma KeptNext(a: Bytes, r: Run, i: nat)
    requires Address(a) && i < 8 && ZeroRun(a, r)
    ensures !In(r, i) ==> Kept(a, r, i + 1) == Kept(a, r, i) + Word(WordAt(a, i))
    ensures In(r, i) ==> Kept(a, r, i + 1) == Kept(a, r, i)
    ensures |Kept(a, r, i)| <= 2 * i
  {
    assert a[..2 * i + 2] == a[..2 * i] + Word(WordAt(a, i));
  }

  lemma {:induction false} FormatInRun(a: Bytes, r: Run, i: nat)
    requires Address(a) && ZeroRun(a, r) && In(r, i - 1) && i <= r.base + r.len
    ensures FormatFrom(a, r, i) == FormatFrom(a, r, r.base + r.len)
    decreases 8 - i
  {
    if i < r.base + r.len {
      FormatInRun(a, r, i + 1);
      assert "" + FormatFrom(a, r, i + 1) == FormatFrom(a, r, i + 1);
    }
  }

  /** After the run comes its second colon. */
  lemma FormatAfterRun(a: Bytes, r: Run)
    requires Address(a) && ZeroRun(a, r) && r.base != -1
    ensures FormatFrom(a, r, r.base + r.len) == ":" + (if r.base + r.len == 8 then "" else FormatWord(a, r, r.base + r.len))
  {
  }

  // --------------------------------------------------- the text as RFC 5952 has it

  /** Groups with colons between them. */
  function Join(groups: seq<string>): string {
    if groups == [] then "" else if |groups| == 1 then groups[0] else groups[0] + ":" + Join(groups[1..])
  }

  function Groups(a: Bytes, b: nat, e: nat): (gs: seq<string>)
    requires Address(a) && b <= e <= 8
  {
    seq(e - b, i requires 0 <= i < e - b => Hex(WordAt(a, b + i)))
  }

  /** An IPv4-mapped address, or an IPv4-compatible one of more than 16 bits. */
  predicate Dotted(a: Bytes)
    requires Address(a)
  {
    ZeroWords(a, 0, 5) && (WordAt(a, 5) == 0xFFFF || (WordAt(a, 5) == 0 && WordAt(a, 6) != 0))
  }

  /** The groups from b on, the last two words in dotted decimal if they are an IPv4 address. */
  function Tail(a: Bytes, b: nat): seq<string>
    requires Address(a) && b <= 8
  {
    if Dotted(a) && b <= 6 then Groups(a, b, 6) + [Format4(a[12..16])] else Groups(a, b, 8)
  }

  /** Hexadecimal groups, the run as two colons. */
  function Text(a: Bytes, r: Run): string
    requires Address(a) && ZeroRun(a, r)
  {
    if r.base == -1 then Join(Tail(a, 0)) else Join(Groups(a, 0, r.base)) + "::" + Join(Tail(a, r.base + r.len))
  }

  /** Lower case, and no zero in front. */
  lemma HexCanonical(w: nat, i: nat)
    requires w < 0x1_0000 && i < |Hex(w)|
    ensures Hex(w)[i] in "0123456789abcdef" && (|Hex(w)| > 1 ==> Hex(w)[0] != '0')
  {
    assert forall d: nat :: d < 16 ==> "0123456789abcdef"[d] in "0123456789abcdef";
    assert "0123456789abcdef"[0] == '0';
    var ds := Digits(w);
    assert Hex(w)[i] == HexChar(ds[i]) && Hex(w)[0] == HexChar(ds[0]);
  }

  lemma EmbedsIff(a: Bytes, r: Run)
    requires Address(a) && FirstLongest(a, r) && !In(r, 6)
    ensures Embeds4(a, r) <==> Dotted(a)
    ensures Dotted(a) ==> r.base == 0 && r.len <= 6
  {
    hide WordAt;
    if r.base != -1 { assert ZeroWords(a, r.base, r.base + r.len); }
    if Dotted(a) {
      assert ZeroWords(a, 0, 5);
      if WordAt(a, 5) == 0 { assert ZeroWords(a, 0, 6); }
    }
    if Embeds4(a, r) && r.len == 6 {
      assert WordAt(a, 6) == 0 ==> ZeroWords(a, 0, 7);
      assert ZeroWords(a, 0, 5) && WordAt(a, 5) == 0;
    }
    if Embeds4(a, r) && r.len == 5 { assert ZeroWords(a, 0, 5); }
  }

  lemma TailNext(a: Bytes, i: nat)
    requires Address(a) && i < 8
    ensures i < 6 || !Dotted(a) || i == 7 ==> Tail(a, i) == [Hex(WordAt(a, i))] + Tail(a, i + 1)
    ensures i == 6 && Dotted(a) ==> Tail(a, i) == [Format4(a[12..16])]
    ensures Tail(a, 8) == []
  {
    hide Hex, Format4, WordAt, Dotted;
  }

  lemma JoinNext(g: string, gs: seq<string>)
    ensures Join([g] + gs) == if gs == [] then g else g + ":" + Join(gs)
  {
    assert ([g] + gs)[1..] == gs;
  }

  /** What FormatWord and FormatFrom do past the run, or without one. */
  lemma WordUnfold(a: Bytes, r: Run, i: nat)
    requires Address(a) && i < 8 && ZeroRun(a, r) && (r.base == -1 || r.base + r.len <= i)
    ensures FormatWord(a, r, i) ==
            if i == 6 && Embeds4(a, r) then Format4(a[12..16])
            else if i == 7 then Hex(WordAt(a, i)) else Hex(WordAt(a, i)) + ":" + FormatWord(a, r, i + 1)
  {
    hide Hex, Format4, WordAt, Embeds4;
    if i < 7 {
      assert FormatFrom(a, r, i + 1) == ":" + FormatWord(a, r, i + 1);
      assert Hex(WordAt(a, i)) + (":" + FormatWord(a, r, i + 1)) == Hex(WordAt(a, i)) + ":" + FormatWord(a, r, i + 1);
    } else {
      assert FormatFrom(a, r, 8) == "";
    }
  }

  /** Past the run, or without one. */
  lemma {:induction false} WordsAfter(a: Bytes, r: Run, i: nat)
    requires Address(a) && FirstLongest(a, r) && i < 8 && (r.base == -1 || r.base + r.len <= i)
    ensures FormatWord(a, r, i) == Join(Tail(a, i))
    decreases 8 - i
  {
    TailNext(a, i);
    TailLength(a, i + 1);
    WordUnfold(a, r, i);
    SixEmbeds(a, r, i);
    var g := Hex(WordAt(a, i));
    JoinNext(g, Tail(a, i + 1));
    hide Hex, Format4, WordAt, FirstLongest, Embeds4, Dotted, Tail, FormatWord, FormatFrom;
    if i < 7 && !(i == 6 && Embeds4(a, r)) { WordsAfter(a, r, i + 1); }
  }

  lemma SixEmbeds(a: Bytes, r: Run, i: nat)
    requires Address(a) && FirstLongest(a, r) && (r.base == -1 || r.base + r.len <= i)
    ensures i == 6 ==> (Embeds4(a, r) <==> Dotted(a))
  {
    if i == 6 { EmbedsIff(a, r); }
  }

  lemma TailLength(a: Bytes, i: nat)
    requires Address(a) && i <= 8
    ensures Tail(a, i) == [] <==> i == 8
  {
  }

  /** Up to the run, and all after it. */
  lemma {:induction false} WordsBefore(a: Bytes, r: Run, i: nat)
    requires Address(a) && FirstLongest(a, r) && r.base != -1 && i < r.base
    ensures FormatWord(a, r, i) == Join(Groups(a, i, r.base)) + "::" + Join(Tail(a, r.base + r.len))
    decreases 8 - i
  {
    BeforeUnfold(a, r, i);
    var g, more, tail := Hex(WordAt(a, i)), Groups(a, i + 1, r.base), Join(Tail(a, r.base + r.len));
    JoinNext(g, more);
    Around(g, Join(more), tail);
    RunText(a, r);
    hide *;
    if i + 1 < r.base { WordsBefore(a, r, i + 1); }
  }

  lemma Around(g: string, x: string, y: string)
    ensures g + ":" + (x + "::" + y) == (g + ":" + x) + "::" + y
    ensures g + ("::" + y) == g + "::" + y
  {
  }

  lemma BeforeUnfold(a: Bytes, r: Run, i: nat)
    requires Address(a) && FirstLongest(a, r) && r.base != -1 && i < r.base
    ensures i < 7 && Groups(a, i, r.base) == [Hex(WordAt(a, i))] + Groups(a, i + 1, r.base)
    ensures Groups(a, i + 1, r.base) == [] <==> i + 1 == r.base
    ensures FormatWord(a, r, i) ==
            if i + 1 == r.base then Hex(WordAt(a, i)) + FormatFrom(a, r, r.base) else Hex(WordAt(a, i)) + ":" + FormatWord(a, r, i + 1)
  {
    RunStart(a, r);
    hide *;
    GroupsNext(a, i, r.base);
    BeforeWord(a, r, i);
  }

  lemma GroupsNext(a: Bytes, b: nat, e: nat)
    requires Address(a) && b < e <= 8
    ensures Groups(a, b, e) == [Hex(WordAt(a, b))] + Groups(a, b + 1, e) && (Groups(a, b + 1, e) == [] <==> b + 1 == e)
  {
    hide Hex, WordAt;
  }

  lemma BeforeWord(a: Bytes, r: Run, i: nat)
    requires Address(a) && 0 < r.base && r.base + r.len <= 8 && r.len >= 2 && i < r.base
    ensures FormatWord(a, r, i) ==
            if i + 1 == r.base then Hex(WordAt(a, i)) + FormatFrom(a, r, r.base) else Hex(WordAt(a, i)) + ":" + FormatWord(a, r, i + 1)
  {
    assert !Embeds4(a, r);
    hide Hex, Format4, WordAt, Embeds4;
    if i + 1 < r.base {
      var g, more := Hex(WordAt(a, i)), FormatWord(a, r, i + 1);
      assert FormatFrom(a, r, i + 1) == ":" + more;
      hide FormatWord, FormatFrom;
      assert g + (":" + more) == g + ":" + more;
    }
  }

  lemma RunText(a: Bytes, r: Run)
    requires Address(a) && FirstLongest(a, r) && r.base != -1
    ensures FormatFrom(a, r, r.base) == "::" + Join(Tail(a, r.base + r.len))
  {
    RunStart(a, r);
    var end := r.base + r.len;
    TailEmpty(a);
    hide *;
    FormatInRun(a, r, r.base + 1);
    FormatAfterRun(a, r);
    if end < 8 { WordsAfter(a, r, end); }
    TwoColons(Join(Tail(a, end)));
  }

  lemma TailEmpty(a: Bytes)
    requires Address(a)
    ensures Join(Tail(a, 8)) == ""
  {
  }

  lemma TwoColons(x: string)
    ensures ":" + (":" + x) == "::" + x
  {
  }

  lemma RunStart(a: Bytes, r: Run)
    requires Address(a) && FirstLongest(a, r) && r.base != -1
    ensures 0 <= r.base && r.base + r.len <= 8 && r.len >= 2 && In(r, r.base) && ZeroRun(a, r)
    ensures FormatFrom(a, r, r.base) == ":" + FormatFrom(a, r, r.base + 1)
  {
    hide WordAt, Hex, Format4, Embeds4;
  }

  /** With the first longest run the loop prints that text. */
  lemma FormatIsText(a: Bytes, r: Run)
    requires Address(a) && FirstLongest(a, r)
    ensures FormatFrom(a, r, 0) == Text(a, r)
  {
    StartText(a, r);
    TextCases(a, r);
    if r.base == -1 { WordsAfter(a, r, 0); } else if r.base == 0 { RunText(a, r); } else { WordsBefore(a, r, 0); }
    hide *;
  }

  lemma TextCases(a: Bytes, r: Run)
    requires Address(a) && ZeroRun(a, r)
    ensures r.base == -1 ==> Text(a, r) == Join(Tail(a, 0))
    ensures r.base == 0 ==> Text(a, r) == "::" + Join(Tail(a, r.len))
    ensures r.base > 0 ==> Text(a, r) == Join(Groups(a, 0, r.base)) + "::" + Join(Tail(a, r.base + r.len))
    ensures -1 <= r.base
  {
    if r.base == 0 { assert Groups(a, 0, 0) == [] && "" + "::" == "::"; }
    hide Tail;
  }

  lemma StartText(a: Bytes, r: Run)
    requires Address(a) && ZeroRun(a, r)
    ensures r.base != 0 ==> FormatFrom(a, r, 0) == FormatWord(a, r, 0)
  {
    hide FormatWord;
    if r.base != 0 { assert "" + FormatWord(a, r, 0) == FormatWord(a, r, 0); }
  }

  function GapAt(r: Run, i: nat): Option<nat> {
    if r.base > -1 && r.base + r.len <= i then Some(2 * r.base) else None
  }

  /** The scanner with word i - 1 read but not yet closed. */
  lemma {:induction false} ScanOpen(a: Bytes, r: Run, i: nat, tok: string)
    requires Address(a) && ZeroRun(a, r) && 0 < i <= 8 && !In(r, i - 1)
    ensures |Hex(WordAt(a, i - 1))| <= 4 && WordAt(a, i - 1) < Pow16(|Hex(WordAt(a, i - 1))|)
    ensures Scan6(FormatFrom(a, r, i), tok, Kept(a, r, i - 1), GapAt(r, i - 1), |Hex(WordAt(a, i - 1))|, WordAt(a, i - 1))
            == Some(Scanned(Kept(a, r, 8), GapAt(r, 8)))
    decreases 8 - i, 1
  {
    hide Scan6, WordAt, Hex, Pow16, Format4, Word, Kept;
    var w := WordAt(a, i - 1);
    var seen := |Hex(w)|;
    ScanWord(w, "", tok, [], None);
    KeptNext(a, r, i - 1);
    if i == 8 {
      ScanEnd(tok, Kept(a, r, 7), GapAt(r, 7), seen, w);
    } else if In(r, i) {
      var rest := FormatFrom(a, r, i + 1);
      FormatInRun(a, r, i + 1);
      FormatAfterRun(a, r);
      ScanColon(rest, tok, Kept(a, r, i - 1), None, seen, w);
      ScanGap(a, r, rest);
    } else {
      var rest := FormatWord(a, r, i);
      FormatWordNonEmpty(a, r, i);
      ScanColon(rest, tok, Kept(a, r, i - 1), GapAt(r, i - 1), seen, w);
      ScanFresh(a, r, i, rest);
    }
  }

  lemma FormatWordNonEmpty(a: Bytes, r: Run, i: nat)
    requires Address(a) && i < 8
    ensures FormatWord(a, r, i) != ""
  {
  }

  lemma ScanEnd(tok: string, out: Bytes, colon: Option<nat>, seen: nat, val: nat)
    requires 0 < seen <= 4 && val < Pow16(seen) && val < 0x1_0000 && |out| <= 14
    ensures Scan6("", tok, out, colon, seen, val) == Some(Scanned(out + Word(val), colon))
  {
  }

  /** At the start of word i. */
  lemma {:induction false} ScanFresh(a: Bytes, r: Run, i: nat, tok: string)
    requires Address(a) && ZeroRun(a, r) && i < 8 && !In(r, i) && tok == FormatWord(a, r, i)
    ensures Scan6(FormatWord(a, r, i), tok, Kept(a, r, i), GapAt(r, i), 0, 0) == Some(Scanned(Kept(a, r, 8), GapAt(r, 8)))
    decreases 8 - i, 0
  {
    hide Scan6, Hex, Pow16, Format4;
    if i == 6 && Embeds4(a, r) {
      ScanV4(a[12..16], Kept(a, r, 6), GapAt(r, 6));
      assert Kept(a, r, 8) == Kept(a, r, 6) + a[12..16];
    } else {
      hide WordAt;
      var w := WordAt(a, i);
      ScanWord(w, FormatFrom(a, r, i + 1), tok, Kept(a, r, i), GapAt(r, i));
      ScanOpen(a, r, i + 1, tok);
    }
  }

  /** At the second colon of the run. */
  lemma {:induction false} ScanGap(a: Bytes, r: Run, tok: string)
    requires Address(a) && ZeroRun(a, r) && r.base != -1
    ensures Scan6(FormatFrom(a, r, r.base + r.len), tok, Kept(a, r, r.base), None, 0, 0) == Some(Scanned(Kept(a, r, 8), GapAt(r, 8)))
    decreases 8 - r.base, 0
  {
    hide Scan6, Hex, Pow16, Format4, WordAt;
    var e := r.base + r.len;
    FormatAfterRun(a, r);
    PowOne();
    var rest := if e == 8 then "" else FormatWord(a, r, e);
    ScanColon(rest, tok, Kept(a, r, r.base), None, 0, 0);
    if e == 8 {
      ScanNothing(Kept(a, r, r.base), Some(2 * r.base));
    } else {
      ScanFresh(a, r, e, rest);
    }
  }

  lemma ScanNothing(out: Bytes, colon: Option<nat>)
    ensures Scan6("", "", out, colon, 0, 0) == Some(Scanned(out, colon))
  {
  }

  lemma ZeroBytes(a: Bytes, r: Run)
    requires Address(a) && ZeroRun(a, r) && r.base != -1
    ensures a[2 * r.base..2 * (r.base + r.len)] == Zeros(2 * r.len)
  {
    forall k | 2 * r.base <= k < 2 * (r.base + r.len) ensures a[k] == 0 {
      assert WordAt(a, k / 2) == 0;
    }
  }

  lemma SpreadKept(a: Bytes, r: Run)
    requires Address(a) && ZeroRun(a, r)
    ensures Spread(Scanned(Kept(a, r, 8), GapAt(r, 8))) == Some(a)
  {
    hide WordAt;
    if r.base == -1 {
      assert a[..16] == a;
    } else {
      ZeroBytes(a, r);
      var out, c := Kept(a, r, 8), 2 * r.base;
      assert out[..c] == a[..c] && out[c..] == a[2 * (r.base + r.len)..];
      assert a == a[..c] + a[c..2 * (r.base + r.len)] + a[2 * (r.base + r.len)..];
    }
  }

  lemma KeptNothing(a: Bytes, r: Run)
    requires Address(a) && ZeroRun(a, r)
    ensures Kept(a, r, 0) == []
  {
  }

  /** inet_pton6 reads back every address inet_ntop6 prints, whichever zero run it shortens. */
  lemma RoundTrip6(a: Bytes, r: Run)
    requires Address(a) && ZeroRun(a, r)
    ensures Parse6(FormatFrom(a, r, 0)) == Some(a)
  {
    KeptNothing(a, r);
    hide Scan6, WordAt, Hex, Format4, Spread, Kept, Embeds4, FormatWord;
    SpreadKept(a, r);
    var text := FormatFrom(a, r, 0);
    if r.base == 0 {
      var rest := FormatFrom(a, r, 1);
      FormatInRun(a, r, 1);
      FormatAfterRun(a, r);
      assert text == ":" + rest && text[1..] == rest && rest[0] == ':';
      ScanGap(a, r, rest);
    } else {
      assert text == "" + FormatWord(a, r, 0) == FormatWord(a, r, 0);
      FirstIsDigit(a, r);
      ScanFresh(a, r, 0, text);
    }
  }

  lemma FirstIsDigit(a: Bytes, r: Run)
    requires Address(a)
    ensures FormatWord(a, r, 0) != "" && FormatWord(a, r, 0)[0] != ':'
  {
    HexCharValue(Digits(WordAt(a, 0))[0]);
  }

  /** The text fits the 46 bytes of the buffer with its terminator. */
  lemma {:induction false} FormatLength(a: Bytes, r: Run, i: nat)
    requires Address(a) && i <= 8
    ensures |FormatFrom(a, r, i)| <= 5 * (8 - i) + 6 && (i == 0 ==> |FormatFrom(a, r, i)| <= 45)
    decreases 8 - i
  {
    hide WordAt, Hex, Format4;
    if i < 8 { FormatLength(a, r, i + 1); }
  }

  // -------------------------------------------------------------- the functions

  /** Every zero run that ends by `end` is shorter than r, or as long and not before it. */
  predicate Beats(a: Bytes, r: Run, end: nat)
    requires Address(a) && end <= 8
  {
    forall b: nat, e: nat :: b < e <= end && ZeroWords(a, b, e) ==>
      r.base != -1 && (e - b < r.len || (e - b == r.len && r.base <= b))
  }

  /** The run being scanned, or the stretch before i without one. */
  predicate Current(a: Bytes, cur: Run, i: nat)
    requires Address(a) && i <= 8
  {
    if cur.base == -1 then i == 0 || WordAt(a, i - 1) != 0
    else
      && 0 <= cur.base < i && cur.len == i - cur.base && ZeroWords(a, cur.base, i)
      && (cur.base > 0 ==> WordAt(a, cur.base - 1) != 0)
  }

  lemma EndRun(a: Bytes, best: Run, cur: Run, i: nat)
    requires Address(a) && 0 < i <= 8 && Current(a, cur, i) && cur.base != -1
    requires ZeroRun(a, best) && Beats(a, best, cur.base) && (best.base != -1 ==> best.base < cur.base)
    ensures Beats(a, if best.base == -1 || cur.len > best.len then cur else best, i)
  {
    var r := if best.base == -1 || cur.len > best.len then cur else best;
    forall b: nat, e: nat | b < e <= i && ZeroWords(a, b, e)
      ensures r.base != -1 && (e - b < r.len || (e - b == r.len && r.base <= b))
    {
    }
  }

  lemma SkipWord(a: Bytes, best: Run, i: nat)
    requires Address(a) && i < 8 && WordAt(a, i) != 0 && Beats(a, best, i)
    ensures Beats(a, best, i + 1)
  {
    forall b: nat, e: nat | b < e <= i + 1 && ZeroWords(a, b, e)
      ensures best.base != -1 && (e - b < best.len || (e - b == best.len && best.base <= b))
    {
    }
  }

  /** The search for the run to shorten. */
  method FindRun(a: Bytes) returns (best: Run)
    requires Address(a)
    ensures FirstLongest(a, best)
  {
    hide WordAt;
    best := Run(-1, 0);
    var cur := Run(-1, 0);
    for i := 0 to 8
      invariant Current(a, cur, i) && ZeroRun(a, best)
      invariant Beats(a, best, if cur.base == -1 then i else cur.base)
      invariant best.base != -1 ==> best.base + best.len <= if cur.base == -1 then i else cur.base
    {
      if WordAt(a, i) == 0 {
        if cur.base == -1 { cur := Run(i, 1); } else { cur := Run(cur.base, cur.len + 1); }
      } else {
        if cur.base != -1 {
          EndRun(a, best, cur, i);
          if best.base == -1 || cur.len > best.len { best := cur; }
          cur := Run(-1, cur.len);
        }
        SkipWord(a, best, i);
      }
    }
    if cur.base != -1 {
      EndRun(a, best, cur, 8);
      if best.base == -1 || cur.len > best.len { best := cur; }
    }
    if best.base != -1 && best.len < 2 { best := Run(-1, best.len); }
  }

  /** One pass of the printing loop. */
  function Piece(a: Bytes, r: Run, i: nat): string
    requires Address(a) && i < 8
  {
    if In(r, i) then if i == r.base then ":" else ""
    else (if i != 0 then ":" else "") + (if i == 6 && Embeds4(a, r) then Format4(a[12..16]) else Hex(WordAt(a, i)))
  }

  lemma FormatPiece(a: Bytes, r: Run, i: nat, text: string)
    requires Address(a) && i < 8
    ensures text + FormatFrom(a, r, i) ==
            if !In(r, i) && i == 6 && Embeds4(a, r) then text + Piece(a, r, i) else text + Piece(a, r, i) + FormatFrom(a, r, i + 1)
  {
    hide WordAt, Hex, Format4;
  }

  lemma FormatEnd(a: Bytes, r: Run, text: string)
    requires Address(a)
    ensures text + FormatFrom(a, r, 8) == if r.base != -1 && r.base + r.len == 8 then text + ":" else text
  {
  }

  method PrintWord(a: Bytes, r: Run, i: nat) returns (p: string, last: bool)
    requires Address(a) && i < 8
    ensures p == Piece(a, r, i) && last == (!In(r, i) && i == 6 && Embeds4(a, r))
  {
    hide WordAt, Hex, Format4;
    p, last := "", false;
    if In(r, i) {
      if i == r.base { p := ":"; }
      return;
    }
    if i != 0 { p := ":"; }
    if i == 6 && Embeds4(a, r) {
      p, last := p + Format4(a[12..16]), true;
    } else {
      p := p + Hex(WordAt(a, i));
    }
  }

  /** inet_ntop6 up to the copy: the text, and the run it shortens. */
  method Print6(a: Bytes) returns (text: string, r: Run)
    requires Address(a)
    ensures FirstLongest(a, r) && text == FormatFrom(a, r, 0) == Text(a, r)
    ensures |text| <= 45 && Parse6(text) == Some(a)
  {
    r := FindRun(a);
    FormatIsText(a, r);
    assert ZeroRun(a, r);
    hide Text;
    hide WordAt, Embeds4, Piece, In, FirstLongest, Parse6, FormatFrom, ZeroRun;
    FormatLength(a, r, 0);
    RoundTrip6(a, r);
    text := "";
    assert text + FormatFrom(a, r, 0) == FormatFrom(a, r, 0);
    for i := 0 to 8
      invariant text + FormatFrom(a, r, i) == FormatFrom(a, r, 0)
    {
      FormatPiece(a, r, i, text);
      var p, last := PrintWord(a, r, i);
      text := text + p;
      if last { return; }
    }
    FormatEnd(a, r, text);
    if r.base != -1 && r.base + r.len == 8 { text := text + ":"; }
  }

  const UV_E2BIG: int := -7
  const UV_ENOSPC: int := -28

  /** uv__strscpy: what the destination of `n` bytes then holds, and the length or an error. */
  method Strscpy(s: string, n: nat) returns (r: int, d: string)
    ensures n == 0 ==> r == 0 && d == ""
    ensures |s| < n ==> r == |s| && d == s
    ensures 0 < n <= |s| ==> r == UV_E2BIG && d == s[..n - 1]
  {
    d := "";
    for i := 0 to n
      invariant i <= |s| && d == s[..i]
    {
      if i == |s| { return i, d; }         // the terminator is copied too
      d := d + [s[i]];
    }
    if n == 0 { return 0, d; }
    return UV_E2BIG, d[..n - 1];
  }

  /** inet_ntop4: nothing is copied unless all of it fits. */
  method Ntop4(a: Bytes, size: nat) returns (r: int, d: string)
    requires |a| == 4
    ensures r == if |Format4(a)| < size then 0 else UV_ENOSPC
    ensures r == 0 ==> d == Format4(a) && Parse4(d) == Some(a)
    ensures r != 0 ==> d == ""
  {
    hide Format4, Parse4;
    RoundTrip4(a);
    var tmp := Format4(a);
    if |tmp| >= size { return UV_ENOSPC, ""; }
    var _, copied := Strscpy(tmp, size);
    return 0, copied;
  }

  /**
   inet_ntop6: the text with the first longest zero run shortened, whole and
   readable if it fits with its terminator, else cut off; an empty buffer is
   left alone and reported as success.
   */
  method Ntop6(a: Bytes, size: nat) returns (r: int, d: string)
    requires Address(a)
    ensures exists run :: FirstLongest(a, run) && Copied(FormatFrom(a, run, 0), size, r, d)
    ensures d != "" && r == 0 ==> Parse6(d) == Some(a)
    ensures size >= 46 ==> r == 0 && Parse6(d) == Some(a)
  {
    hide FormatFrom, Parse6, FirstLongest;
    var text, run := Print6(a);
    var copied;
    copied, d := Strscpy(text, size);
    r := if copied == UV_E2BIG then UV_ENOSPC else 0;
    assert Copied(text, size, r, d);
  }

  /** What a caller of inet_ntop6 gets of `text`. */
  predicate Copied(text: string, size: nat, r: int, d: string) {
    && (r == if size == 0 || |text| < size then 0 else UV_ENOSPC)
    && d == (if size == 0 then "" else if |text| < size then text else text[..size - 1])
  }

  /** inet_pton4: digits and dots into a four byte array. */
  method Pton4(src: string) returns (r: Option<Bytes>)
    ensures r == Parse4(src)
  {
    var tmp: Bytes, saw := [], false;
    for k := 0 to |src|
      invariant Scan4(src[k..], tmp, saw) == Parse4(src) && (saw ==> tmp != [])
    {
      var d := DecValue(src[k]);
      if d.Some? {
        if saw {
          var last := tmp[|tmp| - 1];
          if last == 0 || last * 10 + d.value > 255 { return None; }
          tmp := tmp[|tmp| - 1 := last * 10 + d.value];
        } else {
          if |tmp| + 1 > 4 { return None; }
          tmp := tmp + [d.value];
          saw := true;
        }
      } else if src[k] == '.' && saw {
        if |tmp| == 4 { return None; }
        saw := false;
      } else {
        return None;
      }
    }
    if |tmp| < 4 { return None; }
    return Some(tmp);
  }

  predicate ZeroFrom(s: Bytes, lo: nat, hi: nat)
    requires hi <= |s|
  {
    forall k :: lo <= k < hi ==> s[k] == 0
  }

  /** The shift by hand that opens the gap. */
  method OpenGap(tmp: array<Byte>, tp: nat, c: nat)
    requires tmp.Length == 16 && c <= tp < 16 && ZeroFrom(tmp[..], tp, 16)
    modifies tmp
    ensures Spread(Scanned(old(tmp[..tp]), Some(c))) == Some(tmp[..])
  {
    hide Spread, Zeros;
    ghost var out := tmp[..tp];
    var n := tp - c;
    for i := 1 to n + 1
      invariant forall k :: 0 <= k < tp - i + 1 ==> tmp[k] == out[k]
      invariant forall k :: 17 - i <= k < 16 ==> tmp[k] == out[k - (16 - tp)]
      invariant forall k :: tp - i + 1 <= k < 17 - i ==> tmp[k] == 0
    {
      tmp[16 - i] := tmp[c + n - i];
      tmp[c + n - i] := 0;
    }
    GapOpened(out, c, tmp[..]);
  }

  lemma GapOpened(out: Bytes, c: nat, s: Bytes)
    requires c <= |out| < 16 && |s| == 16
    requires forall k :: 0 <= k < c ==> s[k] == out[k]
    requires forall k :: c + 16 - |out| <= k < 16 ==> s[k] == out[k - (16 - |out|)]
    requires forall k :: c <= k < c + 16 - |out| ==> s[k] == 0
    ensures Spread(Scanned(out, Some(c))) == Some(s)
  {
    var t := out[..c] + Zeros(16 - |out|) + out[c..];
    forall k | 0 <= k < 16 ensures s[k] == t[k] {}
    assert s == t;
  }

  /** Two bytes at tp. */
  method PutWord(tmp: array<Byte>, tp: nat, val: nat)
    requires tmp.Length == 16 && tp <= 14 && val < 0x1_0000 && ZeroFrom(tmp[..], tp, 16)
    modifies tmp
    ensures tmp[..tp + 2] == old(tmp[..tp]) + Word(val) && ZeroFrom(tmp[..], tp + 2, 16)
  {
    tmp[tp] := val / 256;
    tmp[tp + 1] := val % 256;
  }

  method PutBytes(tmp: array<Byte>, tp: nat, b: Bytes)
    requires tmp.Length == 16 && |b| == 4 && tp <= 12 && ZeroFrom(tmp[..], tp, 16)
    modifies tmp
    ensures tmp[..tp + 4] == old(tmp[..tp]) + b && ZeroFrom(tmp[..], tp + 4, 16)
  {
    tmp[tp], tmp[tp + 1], tmp[tp + 2], tmp[tp + 3] := b[0], b[1], b[2], b[3];
  }

  /** The reading half of inet_pton6. */
  method ScanText(src: string, tmp: array<Byte>) returns (ok: bool, tp: nat, colon: Option<nat>)
    requires tmp.Length == 16 && ZeroFrom(tmp[..], 0, 16)
    modifies tmp
    ensures ok == Scan6(src, src, [], None, 0, 0).Some?
    ensures ok ==> tp <= 16 && ZeroFrom(tmp[..], tp, 16) && Scan6(src, src, [], None, 0, 0) == Some(Scanned(tmp[..tp], colon))
  {
    ghost var r := Scan6(src, src, [], None, 0, 0);
    var tok: nat, seen: nat, val: nat := 0, 0, 0;
    ok, tp, colon := false, 0, None;
    assert tmp[..0] == [] && src[0..] == src;
    for k := 0 to |src|
      invariant tok <= k && tp <= 16 && seen <= 4 && val < Pow16(seen) && ZeroFrom(tmp[..], tp, 16)
      invariant Scan6(src[k..], src[tok..], tmp[..tp], colon, seen, val) == r
    {
      var d := HexValue(src[k]);
      assert src[k..][1..] == src[k + 1..];
      if d.Some? {
        if seen + 1 > 4 { return; }
        val, seen := val * 16 + d.value, seen + 1;
        continue;
      }
      if src[k] == ':' {
        tok := k + 1;
        if seen == 0 {
          if colon.Some? { return; }
          colon, val := Some(tp), 0;
          continue;
        } else if k + 1 == |src| {
          return;
        }
        if tp + 2 > 16 { return; }
        Pow16Small(seen);
        PutWord(tmp, tp, val);
        tp, seen, val := tp + 2, 0, 0;
        continue;
      }
      if src[k] == '.' && tp + 4 <= 16 {
        var v4 := Pton4(src[tok..]);
        if v4.Some? && |v4.value| == 4 {
          PutBytes(tmp, tp, v4.value);
          return true, tp + 4, colon;
        }
        ParseLength(src[tok..]);
      }
      return;
    }
    assert src[|src|..] == "";
    if seen > 0 {
      if tp + 2 > 16 { return; }
      Pow16Small(seen);
      PutWord(tmp, tp, val);
      tp := tp + 2;
    }
    ok := true;
  }

  lemma {:induction false} ScanLength(src: string, octets: Bytes, saw: bool)
    requires |octets| <= 4
    ensures Scan4(src, octets, saw).Some? ==> |Scan4(src, octets, saw).value| == 4
    decreases |src|
  {
    if src != "" {
      var d := DecValue(src[0]);
      if d.Some? && !saw && |octets| < 4 {
        ScanLength(src[1..], octets + [d.value], true);
      } else if d.Some? && saw && octets != [] && (octets[|octets| - 1] as int) * 10 + d.value <= 255 {
        ScanLength(src[1..], octets[|octets| - 1 := octets[|octets| - 1] * 10 + d.value], true);
      } else if src[0] == '.' {
        ScanLength(src[1..], octets, false);
      }
    }
  }

  lemma ParseLength(src: string)
    ensures Parse4(src).Some? ==> |Parse4(src).value| == 4
  {
    ScanLength(src, [], false);
  }

  /** inet_pton6. */
  method Pton6(src: string) returns (r: Option<Bytes>)
    ensures r == Parse6(src)
  {
    hide Scan6;
    var start := src;
    if src != "" && src[0] == ':' {
      if |src| == 1 || src[1] != ':' { return None; }
      start := src[1..];
    }
    var tmp := new Byte[16](_ => 0);
    var ok, tp, colon := ScanText(start, tmp);
    if !ok { return None; }
    ColonWithin(start, start, [], None, 0, 0);
    if colon.Some? {
      if tp == 16 { return None; }
      OpenGap(tmp, tp, colon.value);
      return Some(tmp[..]);
    }
    if tp != 16 { return None; }
    assert tmp[..16] == tmp[..];
    return Some(tmp[..]);
  }

  /** The gap is somewhere in what was written. */
  lemma {:induction false} ColonWithin(src: string, tok: string, out: Bytes, colon: Option<nat>, seen: nat, val: nat)
    requires seen <= 4 && val < Pow16(seen) && (colon.Some? ==> colon.value <= |out|)
    ensures var r := Scan6(src, tok, out, colon, seen, val);
            r.Some? && r.value.colon.Some? ==> r.value.colon.value <= |r.value.out|
    decreases |src|
  {
    if src != "" {
      var d := HexValue(src[0]);
      if d.Some? && seen < 4 {
        ColonWithin(src[1..], tok, out, colon, seen + 1, val * 16 + d.value);
      } else if src[0] == ':' && seen == 0 {
        ColonWithin(src[1..], src[1..], out, Some(|out|), 0, 0);
      } else if src[0] == ':' {
        Pow16Small(seen);
        ColonWithin(src[1..], src[1..], out + Word(val), colon, 0, 0);
      }
    }
  }
}
