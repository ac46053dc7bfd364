/**
 Which texts inet_pton accepts: of IPv4 the dotted text it prints itself, and of
 IPv6 the forms of section 2.2 of RFC 4291, in either case of the digits.
 */
module InetForms {
  import opened Bytes
  import opened Inet

  // --------------------------------------------------------------------- IPv4

  function Dots(a: Bytes): string {
    if a == [] then "" else if |a| == 1 then Dec(a[0]) else Dots(a[..|a| - 1]) + "." + Dec(a[|a| - 1])
  }

  /** The text read so far. */
  function Prior(octets: Bytes, saw: bool): string { Dots(octets) + if saw || octets == [] then "" else "." }

  lemma DotsFour(a: Bytes)
    requires |a| == 4
    ensures Dots(a) == Format4(a)
  {
    hide Dec;
    assert a[..3][..2] == a[..2] && a[..2][..1] == a[..1];
    assert Dots(a[..1]) == Dec(a[0]);
    assert Dots(a[..2]) == Dec(a[0]) + "." + Dec(a[1]);
    assert Dots(a[..3]) == Dec(a[0]) + "." + Dec(a[1]) + "." + Dec(a[2]);
  }

  lemma DigitText(c: char, d: nat)
    requires DecValue(c) == Some(d)
    ensures d < 10 && c == HexChar(d)
  {
  }

  lemma DecMore(x: Byte, c: char, d: nat)
    requires 0 < x && DecValue(c) == Some(d) && x * 10 + d <= 255
    ensures Dec(x * 10 + d) == Dec(x) + [c]
  {
    DigitText(c, d);
    assert (x * 10 + d) / 10 == x && (x * 10 + d) % 10 == d && (x * 10 + d) / 100 == x / 10;
  }

  lemma DotsLast(octets: Bytes, x: Byte)
    ensures Dots(octets + [x]) == Prior(octets, false) + Dec(x)
  {
    hide Dec;
    assert (octets + [x])[..|octets|] == octets;
  }

  lemma NewOctet(octets: Bytes, c: char, d: nat)
    requires DecValue(c) == Some(d)
    ensures d < 10 && Prior(octets + [d], true) == Prior(octets, false) + [c]
  {
    DigitText(c, d);
    DotsLast(octets, d);
    assert Dec(d) == [c];
    hide Dots, Dec;
    AllRead(octets + [d]);
    assert Prior(octets + [d], true) == Dots(octets + [d]);
  }

  lemma LongerOctet(octets: Bytes, c: char, d: nat)
    requires octets != [] && DecValue(c) == Some(d) && 0 < octets[|octets| - 1] && octets[|octets| - 1] * 10 + d <= 255
    ensures Prior(octets[|octets| - 1 := octets[|octets| - 1] * 10 + d], true) == Prior(octets, true) + [c]
  {
    var n := |octets| - 1;
    var x, init := octets[n], octets[..n];
    var y := x * 10 + d;
    DecMore(x, c, d);
    DotsLast(init, x);
    DotsLast(init, y);
    assert octets == init + [x] && octets[n := y] == init + [y];
    AllRead(init + [x]);
    AllRead(init + [y]);
    hide Dec, Dots, Prior, DecValue;
    Snoc(Prior(init, false), Dec(x), c);
  }

  lemma Snoc(p: string, q: string, c: char)
    ensures p + (q + [c]) == (p + q) + [c]
  {
  }

  lemma {:induction false} Scan4Text(src: string, octets: Bytes, saw: bool, a: Bytes)
    requires Scan4(src, octets, saw) == Some(a) && (if saw then 0 < |octets| <= 4 else |octets| < 4)
    ensures |a| == 4 && Prior(octets, saw) + src == Dots(a)
    decreases |src|
  {
    hide Dots, Prior;
    if src == "" {
      assert |octets| == 4 && saw && a == octets;
      AllRead(octets);
    } else {
      var c, rest := src[0], src[1..];
      assert src == [c] + rest;
      var d := DecValue(c);
      if d.Some? && !saw {
        NewOctet(octets, c, d.value);
        Scan4Text(rest, octets + [d.value], true, a);
        assert (Prior(octets, saw) + [c]) + rest == Prior(octets, saw) + src;
      } else if d.Some? {
        var n := |octets| - 1;
        LongerOctet(octets, c, d.value);
        Scan4Text(rest, octets[n := octets[n] * 10 + d.value], true, a);
        assert (Prior(octets, saw) + [c]) + rest == Prior(octets, saw) + src;
      } else {
        DotRead(octets);
        Scan4Text(rest, octets, false, a);
        assert (Prior(octets, saw) + ".") + rest == Prior(octets, saw) + src;
      }
    }
  }

  lemma AllRead(octets: Bytes)
    ensures Prior(octets, true) == Dots(octets) && Prior(octets, true) + "" == Dots(octets)
  {
  }

  lemma DotRead(octets: Bytes)
    requires octets != []
    ensures Prior(octets, false) == Prior(octets, true) + "."
  {
  }

  /** inet_pton4 accepts exactly what inet_ntop4 prints. */
  lemma Parse4Iff(s: string, a: Bytes)
    ensures Parse4(s) == Some(a) <==> |a| == 4 && s == Format4(a)
  {
    if |a| == 4 && s == Format4(a) { RoundTrip4(a); }
    if Parse4(s) == Some(a) {
      Scan4Text(s, [], false, a);
      assert Prior([], false) + s == s;
      DotsFour(a);
    }
    hide Scan4, Format4;
  }

  // ------------------------------------------------------- one token of IPv6

  predicate IsHex(c: char) { HexValue(c).Some? }

  function HexDigit(c: char): (d: nat)
    ensures d < 16
  {
    if IsHex(c) then HexValue(c).value else 0
  }

  /** The number that hex digits spell. */
  function HexNumber(s: string): nat {
    if s == "" then 0 else HexNumber(s[..|s| - 1]) * 16 + HexDigit(s[|s| - 1])
  }

  lemma {:induction false} HexNumberSmall(s: string)
    ensures HexNumber(s) < Pow16(|s|)
  {
    if s != "" { HexNumberSmall(s[..|s| - 1]); }
  }

  predicate AllHex(s: string) { forall i :: 0 <= i < |s| ==> IsHex(s[i]) }

  /** One to four hex digits for two bytes, the high one first. */
  predicate Group(g: string, w: Bytes) {
    1 <= |g| <= 4 && AllHex(g) && |w| == 2 && var high: int, low: int := w[0], w[1]; HexNumber(g) == 256 * high + low
  }

  /** What follows the hex digits at the front. */
  predicate Stops(rest: string) { rest == "" || !IsHex(rest[0]) }

  lemma {:induction false} HexRun(g: string, rest: string, tok: string, out: Bytes, colon: Option<nat>)
    requires AllHex(g) && |g| <= 4
    ensures HexNumber(g) < Pow16(|g|)
    ensures Scan6(g + rest, tok, out, colon, 0, 0) == Scan6(rest, tok, out, colon, |g|, HexNumber(g))
    decreases |g|
  {
    HexNumberSmall(g);
    hide Scan6, HexValue, Pow16;
    if g == "" {
      assert g + rest == rest;
    } else {
      var n := |g| - 1;
      var c, head := g[n], g[..n];
      assert IsHex(c) && HexNumber(g) == HexNumber(head) * 16 + HexDigit(c);
      HexRun(head, [c] + rest, tok, out, colon);
      assert head + ([c] + rest) == g + rest;
      HexStep(c, rest, tok, out, colon, n, HexNumber(head));
    }
  }

  lemma HexStep(c: char, rest: string, tok: string, out: Bytes, colon: Option<nat>, seen: nat, val: nat)
    requires seen < 4 && val < Pow16(seen) && IsHex(c)
    ensures val * 16 + HexDigit(c) < Pow16(seen + 1)
    ensures Scan6([c] + rest, tok, out, colon, seen, val) == Scan6(rest, tok, out, colon, seen + 1, val * 16 + HexDigit(c))
  {
    hide Scan6, Pow16;
    ScanHexDigit(c, rest, tok, out, colon, seen, val, HexDigit(c));
  }

  /** The hex digits at the front of a text. */
  function HexLength(src: string): (n: nat)
    ensures n <= |src| && AllHex(src[..n]) && Stops(src[n..])
  {
    if src == "" || !IsHex(src[0]) then 0
    else
      var n := HexLength(src[1..]);
      assert src[..n + 1] == [src[0]] + src[1..][..n] && src[n + 1..] == src[1..][n..];
      n + 1
  }

  lemma TooLong(src: string, tok: string, out: Bytes, colon: Option<nat>)
    requires HexLength(src) > 4
    ensures Scan6(src, tok, out, colon, 0, 0) == None
  {
    var g, rest := src[..4], src[4..];
    assert src == g + rest && src[..HexLength(src)][4] == rest[0];
    assert IsHex(src[..HexLength(src)][4]);
    HexRun(g, rest, tok, out, colon);
    Fifth(rest, tok, out, colon, HexNumber(g));
    hide Scan6;
  }

  lemma Fifth(rest: string, tok: string, out: Bytes, colon: Option<nat>, val: nat)
    requires rest != "" && IsHex(rest[0]) && val < Pow16(4)
    ensures Scan6(rest, tok, out, colon, 4, val) == None
  {
  }

  /** What a token may come to. */
  datatype Token =
    | Last(w: Bytes)                     // a group, or nothing, and the text ends
    | Next(w: Bytes, rest: string)       // a group and a colon
    | Gap(rest: string)                  // a colon at once
    | Four(w: Bytes)                     // an IPv4 address to the end
    | Bad

  /** The word written for a token of hex digits. */
  function WordOf(g: string): (w: Bytes)
    requires |g| <= 4
    ensures |w| == if g == "" then 0 else 2
  {
    HexNumberSmall(g);
    Pow16Small(|g|);
    if g == "" then [] else Word(HexNumber(g))
  }

  function TokenOf(src: string): Token {
    var n := HexLength(src);
    if n > 4 then Bad
    else
      var rest := src[n..];
      if rest == "" then Last(WordOf(src[..n]))
      else if rest[0] == ':' then
        if n == 0 then Gap(rest[1..]) else if |rest| == 1 then Bad else Next(WordOf(src[..n]), rest[1..])
      else if rest[0] == '.' && Parse4(src).Some? then Four(Parse4(src).value)
      else Bad
  }

  /** How the loop goes on from the start of a token. */
  function After(src: string, out: Bytes, colon: Option<nat>): Option<Scanned> {
    match TokenOf(src)
    case Last(w) => if |out| + |w| > 16 then None else Some(Scanned(out + w, colon))
    case Next(w, rest) => if |out| + |w| > 16 then None else Scan6(rest, rest, out + w, colon, 0, 0)
    case Gap(rest) => if colon.Some? then None else Scan6(rest, rest, out, Some(|out|), 0, 0)
    case Four(w) => if |out| + 4 > 16 then None else Some(Scanned(out + w, colon))
    case Bad => None
  }

  lemma TokenScan(src: string, out: Bytes, colon: Option<nat>)
    requires |out| <= 16
    ensures Scan6(src, src, out, colon, 0, 0) == After(src, out, colon)
  {
    var n := HexLength(src);
    if n > 4 {
      TooLong(src, src, out, colon);
      hide Scan6;
    } else {
      var g, rest := src[..n], src[n..];
      assert src == g + rest;
      HexRun(g, rest, src, out, colon);
      Pow16Small(n);
      TokenEnds(g, rest, src, out, colon);
      hide Scan6;
    }
  }

  lemma TokenEnds(g: string, rest: string, tok: string, out: Bytes, colon: Option<nat>)
    requires |g| <= 4 && HexNumber(g) < Pow16(|g|) && HexNumber(g) < 0x1_0000 && Stops(rest) && |out| <= 16
    ensures var r := Scan6(rest, tok, out, colon, |g|, HexNumber(g));
            && (rest == "" ==> r == if |out| + |WordOf(g)| > 16 then None else Some(Scanned(out + WordOf(g), colon)))
            && (rest != "" && rest[0] == ':' && g == "" ==> r == if colon.Some? then None else Scan6(rest[1..], rest[1..], out, Some(|out|), 0, 0))
            && (rest != "" && rest[0] == ':' && g != "" ==>
                  r == if |rest| == 1 || |out| + 2 > 16 then None else Scan6(rest[1..], rest[1..], out + WordOf(g), colon, 0, 0))
            && (rest != "" && rest[0] == '.' ==>
                  r == if |out| + 4 > 16 || Parse4(tok).None? then None else Some(Scanned(out + Parse4(tok).value, colon)))
            && (rest != "" && rest[0] != ':' && rest[0] != '.' ==> r == None)
  {
    hide Scan4, HexNumber, Word;
    assert g == "" ==> out + WordOf(g) == out;
    assert Pow16(0) == 1;
  }

  // --------------------------------------------------------- the forms of IPv6

  /** Groups for two bytes each; if `four`, the last may be an IPv4 address. */
  ghost predicate Spell(gs: seq<string>, b: Bytes, four: bool) {
    if gs == [] then b == []
    else (|b| >= 2 && Group(gs[0], b[..2]) && Spell(gs[1..], b[2..], four))
         || (four && |gs| == 1 && |b| == 4 && gs[0] == Format4(b))
  }

  lemma GroupWord(g: string, w: Bytes)
    requires |g| <= 4 && AllHex(g)
    ensures g != "" ==> Group(g, WordOf(g))
    ensures Group(g, w) ==> w == WordOf(g)
  {
    HexNumberSmall(g);
    Pow16Small(|g|);
  }

  lemma FirstStops(g: string, rest: string)
    requires AllHex(g) && Stops(rest)
    ensures HexLength(g + rest) == |g| && (g + rest)[..|g|] == g && (g + rest)[|g|..] == rest
  {
    var src := g + rest;
    var n := HexLength(src);
    hide HexLength, IsHex;
    assert AllHex(src[..n]) && Stops(src[n..]);
    NotShorter(g, rest, n);
    hide AllHex, Stops;
    if |g| < n { NotLonger(g, rest, n); }
  }

  lemma NotShorter(g: string, rest: string, n: nat)
    requires AllHex(g) && n <= |g + rest| && Stops((g + rest)[n..])
    ensures |g| <= n
  {
    hide IsHex;
  }

  lemma NotLonger(g: string, rest: string, n: nat)
    requires |g| < n <= |g + rest| && AllHex((g + rest)[..n])
    ensures !Stops(rest)
  {
    assert (g + rest)[..n][|g|] == rest[0];
  }

  /** The text of a group, a gap or an address at the start is that token. */
  lemma GroupToken(g: string, w: Bytes, rest: string)
    requires Group(g, w)
    ensures TokenOf(g) == Last(w)
    ensures rest != "" ==> TokenOf(g + ":" + rest) == Next(w, rest)
  {
    GroupWord(g, w);
    FirstStops(g, "");
    assert g + "" == g;
    assert Stops(":" + rest) && g + (":" + rest) == g + ":" + rest && (":" + rest)[1..] == rest;
    FirstStops(g, ":" + rest);
    hide HexLength, WordOf, Scan4, Group;
  }

  lemma GapToken(rest: string)
    ensures TokenOf(":" + rest) == Gap(rest) && TokenOf("") == Last([])
  {
    assert ":" + rest == "" + (":" + rest) && (":" + rest)[1..] == rest;
    FirstStops("", ":" + rest);
    FirstStops("", "");
  }

  lemma FourToken(b: Bytes)
    requires |b| == 4
    ensures TokenOf(Format4(b)) == Four(b)
  {
    RoundTrip4(b);
    var rest := FormatHead(b);
    assert AllHex(Dec(b[0])) by { DecHex(b[0]); }
    FirstStops(Dec(b[0]), rest);
    hide Dec, HexLength, Scan4, Format4;
  }

  lemma DecHex(b: Byte)
    ensures AllHex(Dec(b))
  {
    HexCharValue(b % 10);
    HexCharValue(b / 10 % 10);
    HexCharValue(b / 100);
    hide HexChar, HexValue;
  }

  lemma TokenParts(src: string)
    ensures var n, t := HexLength(src), TokenOf(src);
            && (t.Last? ==> n == |src| <= 4 && t.w == WordOf(src))
            && (t.Next? ==> 1 <= n <= 4 && t.rest != "" && src == src[..n] + ":" + t.rest && t.w == WordOf(src[..n]))
            && (t.Gap? ==> src == ":" + t.rest)
            && (t.Four? ==> Parse4(src) == Some(t.w))
  {
    var n := HexLength(src);
    hide HexLength, WordOf, Parse4;
    Pieces(src, n);
  }

  lemma Pieces(src: string, n: nat)
    requires n <= |src|
    ensures src[..n] + src[n..] == src && (n == |src| ==> src[..n] == src)
    ensures n < |src| ==> src == src[..n] + [src[n]] + src[n..][1..] && (n == 0 ==> src == [src[n]] + src[n..][1..])
  {
  }

  /** And what a token is says what the text is. */
  lemma TokenText(src: string)
    ensures var t := TokenOf(src);
            && (t.Last? ==> if t.w == [] then src == "" else Group(src, t.w))
            && (t.Next? ==> t.rest != "" && Group(src[..HexLength(src)], t.w) && src == src[..HexLength(src)] + ":" + t.rest)
            && (t.Gap? ==> src == ":" + t.rest)
            && (t.Four? ==> |t.w| == 4 && src == Format4(t.w))
  {
    TokenParts(src);
    var n := HexLength(src);
    assert AllHex(src[..n]) && (n == |src| ==> src[..n] == src);
    hide TokenOf, HexLength, WordOf, Parse4, Format4, Group, AllHex;
    if n <= 4 { GroupWord(src[..n], []); }
    if TokenOf(src).Four? { Parse4Iff(src, TokenOf(src).w); }
  }

  // ------------------------------------------------------------ after the gap

  lemma JoinMore(g: string, gs: seq<string>)
    requires gs != []
    ensures Join([g] + gs) == g + ":" + Join(gs)
  {
    assert ([g] + gs)[1..] == gs;
  }

  lemma SpellMore(g: string, w: Bytes, gs: seq<string>, b: Bytes, four: bool)
    requires Group(g, w) && Spell(gs, b, four)
    ensures Spell([g] + gs, w + b, four)
  {
    assert ([g] + gs)[1..] == gs && (w + b)[..2] == w && (w + b)[2..] == b;
    hide Group;
  }

  lemma SpellOne(g: string, b: Bytes)
    requires Group(g, b) || (|b| == 4 && g == Format4(b))
    ensures Spell([g], b, true) && (Group(g, b) ==> Spell([g], b, false)) && Join([g]) == g
  {
    if Group(g, b) { assert b[..2] == b && b[2..] == [] && [g][1..] == []; }
    hide Format4, Group;
  }

  /** A text is empty exactly when it has no groups. */
  lemma {:induction false} SpellText(gs: seq<string>, b: Bytes, four: bool)
    requires Spell(gs, b, four)
    ensures gs == [] <==> Join(gs) == ""
    ensures gs == [] <==> b == []
    ensures gs != [] ==> IsHex(Join(gs)[0])
  {
    if gs != [] {
      if |b| == 4 && gs[0] == Format4(b) {
        var rest := FormatHead(b);
        DecHex(b[0]);
        hide Dec, Format4;
        assert Join(gs)[0] == gs[0][0];
      } else {
        assert gs[0] != "" && IsHex(gs[0][0]) && Join(gs)[0] == gs[0][0];
      }
    }
  }

  /** What the loop read from the start of a token on, after the gap. */
  ghost predicate TailIs(src: string, out: Bytes, c: nat, hs: seq<string>, y: Bytes) {
    && |out| + |y| <= 16 && src == Join(hs) && Spell(hs, y, true)
    && Scan6(src, src, out, Some(c), 0, 0) == Some(Scanned(out + y, Some(c)))
  }

  lemma TailLast(src: string, out: Bytes, c: nat, w: Bytes)
    requires |out| + |w| <= 16 && Scan6(src, src, out, Some(c), 0, 0) == Some(Scanned(out + w, Some(c)))
    requires if src == "" then w == [] else Group(src, w) || (|w| == 4 && src == Format4(w))
    ensures TailIs(src, out, c, if src == "" then [] else [src], w)
  {
    if src == "" { NoText(); } else { SpellOne(src, w); }
    hide Scan6, Group, Format4, Spell, Join;
  }

  lemma TailNext(src: string, out: Bytes, c: nat, g: string, w: Bytes, rest: string, hs: seq<string>, y: Bytes)
    requires |out + w| <= 16 && rest != "" && Group(g, w) && src == g + ":" + rest && TailIs(rest, out + w, c, hs, y)
    requires Scan6(src, src, out, Some(c), 0, 0) == Scan6(rest, rest, out + w, Some(c), 0, 0)
    ensures TailIs(src, out, c, [g] + hs, w + y)
  {
    SpellText(hs, y, true);
    SpellMore(g, w, hs, y, true);
    JoinMore(g, hs);
    hide Scan6, Group, Spell, Join;
    assert (out + w) + y == out + (w + y);
  }

  lemma {:induction false} TailGiven(src: string, out: Bytes, c: nat) returns (hs: seq<string>, y: Bytes)
    requires |out| <= 16 && Scan6(src, src, out, Some(c), 0, 0).Some?
    ensures TailIs(src, out, c, hs, y)
    decreases |src|
  {
    TokenScan(src, out, Some(c));
    TokenText(src);
    hide Scan6, TokenOf, Group, Format4, TailIs, HexLength;
    match TokenOf(src)
    case Last(w) =>
      hs, y := if src == "" then [] else [src], w;
      TailLast(src, out, c, w);
    case Next(w, rest) =>
      hs, y := TailGiven(rest, out + w, c);
      TailNext(src, out, c, src[..HexLength(src)], w, rest, hs, y);
      hs, y := [src[..HexLength(src)]] + hs, w + y;
    case Four(w) =>
      hs, y := [src], w;
      TailLast(src, out, c, w);
  }

  lemma NoText()
    ensures Join([]) == "" && forall four :: Spell([], [], four)
  {
  }

  lemma NextScan(g: string, w: Bytes, rest: string, out: Bytes, colon: Option<nat>)
    requires Group(g, w) && rest != "" && |out| + 2 <= 16
    ensures Scan6(g + ":" + rest, g + ":" + rest, out, colon, 0, 0) == Scan6(rest, rest, out + w, colon, 0, 0)
  {
    TokenScan(g + ":" + rest, out, colon);
    GroupToken(g, w, rest);
    assert |w| == 2;
    hide Scan6, TokenOf, Group;
  }

  lemma LastScan(src: string, w: Bytes, out: Bytes, colon: Option<nat>)
    requires if src == "" then w == [] else Group(src, w) || (|w| == 4 && src == Format4(w))
    requires |out| + |w| <= 16
    ensures Scan6(src, src, out, colon, 0, 0) == Some(Scanned(out + w, colon))
  {
    TokenScan(src, out, colon);
    if src == "" { GapToken(""); } else if Group(src, w) { GroupToken(src, w, ""); } else { FourToken(w); }
    hide Scan6, TokenOf, Group, Format4;
  }

  /** The first group and the others. */
  lemma SpellSplit(hs: seq<string>, y: Bytes)
    requires Spell(hs, y, true)
    ensures hs == [] ==> y == [] && Join(hs) == ""
    ensures |hs| == 1 ==> Join(hs) == hs[0] != "" && (Group(hs[0], y) || (|y| == 4 && hs[0] == Format4(y)))
    ensures |hs| > 1 ==> |y| >= 2 && Group(hs[0], y[..2]) && Spell(hs[1..], y[2..], true) && Join(hs[1..]) != "" && Join(hs) == hs[0] + ":" + Join(hs[1..])
  {
    SpellText(hs, y, true);
    if hs != [] && !(|hs| == 1 && |y| == 4 && hs[0] == Format4(y)) {
      SpellText(hs[1..], y[2..], true);
      if |hs| == 1 { assert y[..2] == y; }
    }
    hide Group, Format4;
  }

  lemma {:induction false} TailRead(hs: seq<string>, y: Bytes, out: Bytes, colon: Option<nat>)
    requires Spell(hs, y, true) && |out| + |y| <= 16
    ensures Scan6(Join(hs), Join(hs), out, colon, 0, 0) == Some(Scanned(out + y, colon))
    decreases |hs|
  {
    SpellSplit(hs, y);
    hide Scan6, Group, Format4, Spell, Join;
    if |hs| <= 1 {
      LastScan(Join(hs), y, out, colon);
    } else {
      var w, b := y[..2], y[2..];
      NextScan(hs[0], w, Join(hs[1..]), out, colon);
      TailRead(hs[1..], b, out + w, colon);
      assert (out + w) + b == out + y;
    }
  }

  // ----------------------------------------------------------- before the gap

  /** The text up to its end, or up to the gap and from there on. */
  ghost predicate Whole(s: string, gs: seq<string>, x: Bytes) { s == Join(gs) && Spell(gs, x, true) }

  /** The groups before a gap with the colon that closes the last of them. */
  function Closed(gs: seq<string>): string { if gs == [] then "" else Join(gs) + ":" }

  ghost predicate Gapped(s: string, gs: seq<string>, x: Bytes, hs: seq<string>, y: Bytes) {
    s == Closed(gs) + ":" + Join(hs) && Spell(gs, x, false) && Spell(hs, y, true)
  }

  lemma GappedMore(g: string, w: Bytes, rest: string, gs: seq<string>, x: Bytes, hs: seq<string>, y: Bytes)
    requires Group(g, w) && Gapped(rest, gs, x, hs, y)
    ensures Gapped(g + ":" + rest, [g] + gs, w + x, hs, y)
  {
    SpellMore(g, w, gs, x, false);
    hide Group, Spell;
    if gs == [] {
      assert [g] + gs == [g] && Closed([g]) == g + ":";
      assert g + ":" + rest == (g + ":") + ":" + Join(hs);
    } else {
      JoinMore(g, gs);
      assert g + ":" + rest == (g + ":" + Join(gs) + ":") + ":" + Join(hs);
    }
  }

  lemma WholeMore(g: string, w: Bytes, rest: string, gs: seq<string>, x: Bytes)
    requires rest != "" && Group(g, w) && Whole(rest, gs, x)
    ensures Whole(g + ":" + rest, [g] + gs, w + x)
  {
    SpellText(gs, x, true);
    SpellMore(g, w, gs, x, true);
    JoinMore(g, gs);
    hide Group, Spell;
  }

  lemma OneWhole(src: string, w: Bytes)
    requires Group(src, w) || (|w| == 4 && src == Format4(w))
    ensures Whole(src, [src], w)
  {
    SpellOne(src, w);
    hide Group, Format4, Spell;
  }

  lemma NoWhole()
    ensures Whole("", [], [])
  {
  }

  lemma GapOnly(rest: string, hs: seq<string>, y: Bytes)
    requires rest == Join(hs) && Spell(hs, y, true)
    ensures Gapped(":" + rest, [], [], hs, y)
  {
    assert "" + ":" + Join(hs) == ":" + rest;
  }

  lemma Adding(out: Bytes, w: Bytes, x: Bytes, y: Bytes)
    ensures (out + w) + x == out + (w + x) && (out + w) + x + y == out + (w + x) + y
    ensures out + [] == out && out + [] + y == out + y
  {
  }

  /** What the loop read from the start of a token on, before any gap. */
  ghost predicate HeadIs(src: string, out: Bytes, gap: bool, gs: seq<string>, x: Bytes, hs: seq<string>, y: Bytes) {
    && |out| + |x| <= 16
    && Scan6(src, src, out, None, 0, 0) == Some(if gap then Scanned(out + x + y, Some(|out| + |x|)) else Scanned(out + x, None))
    && if gap then Gapped(src, gs, x, hs, y) else Whole(src, gs, x)
  }

  lemma HeadLast(src: string, out: Bytes, w: Bytes)
    requires |out| + |w| <= 16 && Scan6(src, src, out, None, 0, 0) == Some(Scanned(out + w, None))
    requires if src == "" then w == [] else Group(src, w) || (|w| == 4 && src == Format4(w))
    ensures HeadIs(src, out, false, if src == "" then [] else [src], w, [], [])
  {
    if src == "" { NoWhole(); } else { OneWhole(src, w); }
    hide Scan6, Group, Format4, Whole, Gapped;
  }

  lemma HeadNext(src: string, out: Bytes, g: string, w: Bytes, rest: string, gap: bool, gs: seq<string>, x: Bytes, hs: seq<string>, y: Bytes)
    requires |out + w| <= 16 && rest != "" && Group(g, w) && src == g + ":" + rest && HeadIs(rest, out + w, gap, gs, x, hs, y)
    requires Scan6(src, src, out, None, 0, 0) == Scan6(rest, rest, out + w, None, 0, 0)
    ensures HeadIs(src, out, gap, [g] + gs, w + x, hs, y)
  {
    hide Scan6, Group, Whole, Gapped;
    Adding(out, w, x, y);
    if gap { GappedMore(g, w, rest, gs, x, hs, y); } else { WholeMore(g, w, rest, gs, x); }
  }

  lemma HeadGap(src: string, out: Bytes, rest: string, hs: seq<string>, y: Bytes)
    requires |out| <= 16 && src == ":" + rest && rest == Join(hs) && Spell(hs, y, true)
    requires Scan6(src, src, out, None, 0, 0) == Some(Scanned(out + y, Some(|out|)))
    ensures HeadIs(src, out, true, [], [], hs, y)
  {
    hide Scan6, Whole, Gapped, Join, Spell;
    Adding(out, [], [], y);
    GapOnly(rest, hs, y);
  }

  lemma {:induction false} HeadGiven(src: string, out: Bytes) returns (gap: bool, gs: seq<string>, x: Bytes, hs: seq<string>, y: Bytes)
    requires |out| <= 16 && Scan6(src, src, out, None, 0, 0).Some?
    ensures HeadIs(src, out, gap, gs, x, hs, y)
    decreases |src|
  {
    TokenScan(src, out, None);
    TokenText(src);
    hide Scan6, TokenOf, Group, Format4, Spell, HeadIs, Join, HexLength;
    match TokenOf(src)
    case Last(w) =>
      gap, gs, x, hs, y := false, if src == "" then [] else [src], w, [], [];
      HeadLast(src, out, w);
    case Next(w, rest) =>
      gap, gs, x, hs, y := HeadGiven(rest, out + w);
      HeadNext(src, out, src[..HexLength(src)], w, rest, gap, gs, x, hs, y);
      gs, x := [src[..HexLength(src)]] + gs, w + x;
    case Gap(rest) =>
      hs, y := TailGiven(rest, out, |out|);
      gap, gs, x := true, [], [];
      HeadGap(src, out, rest, hs, y);
    case Four(w) =>
      gap, gs, x, hs, y := false, [src], w, [], [];
      HeadLast(src, out, w);
  }

  lemma GapScan(rest: string, out: Bytes)
    requires |out| <= 16
    ensures Scan6(":" + rest, ":" + rest, out, None, 0, 0) == Scan6(rest, rest, out, Some(|out|), 0, 0)
  {
    TokenScan(":" + rest, out, None);
    GapToken(rest);
    hide Scan6, TokenOf;
  }

  lemma GappedSplit(s: string, gs: seq<string>, x: Bytes, hs: seq<string>, y: Bytes) returns (rest: string)
    requires Gapped(s, gs, x, hs, y)
    ensures gs == [] ==> x == [] && s == ":" + Join(hs) && Spell(hs, y, true)
    ensures gs != [] ==> |x| >= 2 && Group(gs[0], x[..2]) && rest != "" && s == gs[0] + ":" + rest && Gapped(rest, gs[1..], x[2..], hs, y)
  {
    hide Group;
    rest := "";
    if gs == [] {
      assert "" + ":" + Join(hs) == ":" + Join(hs);
    } else {
      rest := Closed(gs[1..]) + ":" + Join(hs);
      assert gs == [gs[0]] + gs[1..];
      ClosedMore(gs[0], gs[1..], Join(hs));
    }
  }

  lemma {:induction false} HeadRead(s: string, gs: seq<string>, x: Bytes, hs: seq<string>, y: Bytes, out: Bytes)
    requires Gapped(s, gs, x, hs, y) && |out| + |x| + |y| <= 16
    ensures Scan6(s, s, out, None, 0, 0) == Some(Scanned(out + x + y, Some(|out| + |x|)))
    decreases |gs|
  {
    hide Scan6, Spell, Group, Join, Gapped;
    var rest := GappedSplit(s, gs, x, hs, y);
    if gs == [] {
      GapScan(Join(hs), out);
      TailRead(hs, y, out, Some(|out|));
      Adding(out, [], [], y);
    } else {
      var w, x' := x[..2], x[2..];
      assert x == w + x';
      NextScan(gs[0], w, rest, out, None);
      HeadRead(rest, gs[1..], x', hs, y, out + w);
      Adding(out, w, x', y);
    }
  }

  lemma ClosedMore(g: string, gs: seq<string>, tail: string)
    ensures Closed([g] + gs) + ":" + tail == g + ":" + (Closed(gs) + ":" + tail)
  {
    if gs != [] { JoinMore(g, gs); }
  }

  // ------------------------------------------------------------- whole texts

  /** All sixteen bytes are spelled out. */
  ghost predicate Full(s: string, a: Bytes, gs: seq<string>) { |a| == 16 && s == Join(gs) && Spell(gs, a, true) }

  /** Two colons stand for two bytes of zeros or more. */
  ghost predicate Short(s: string, a: Bytes, gs: seq<string>, x: Bytes, hs: seq<string>, y: Bytes) {
    && s == Join(gs) + "::" + Join(hs) && Spell(gs, x, false) && Spell(hs, y, true)
    && |x| + |y| < 16 && a == x + Zeros(16 - |x| - |y|) + y
  }

  /** A text form of the address. */
  ghost predicate Spells(s: string, a: Bytes) {
    (exists gs :: Full(s, a, gs)) || (exists gs, x, hs, y :: Short(s, a, gs, x, hs, y))
  }

  lemma SpreadGap(x: Bytes, y: Bytes, a: Bytes)
    ensures Spread(Scanned(x + y, Some(|x|))) == Some(a) <==> |x| + |y| < 16 && a == x + Zeros(16 - |x| - |y|) + y
    ensures Spread(Scanned(x, None)) == Some(a) <==> |x| == 16 && a == x
  {
    assert (x + y)[..|x|] == x && (x + y)[|x|..] == y;
  }

  lemma ColonFirst(s: string, gs: seq<string>, x: Bytes, tail: string, four: bool)
    requires Spell(gs, x, four) && s == Join(gs) + tail && gs != []
    ensures s != "" && s[0] != ':'
  {
    SpellText(gs, x, four);
    hide Join;
  }

  lemma FullRead(s: string, a: Bytes, gs: seq<string>)
    requires Full(s, a, gs)
    ensures Parse6(s) == Some(a)
  {
    SpellText(gs, a, true);
    assert s == Join(gs) + "";
    ColonFirst(s, gs, a, "", true);
    TailRead(gs, a, [], None);
    assert [] + a == a;
    hide Scan6, Spell, Join;
  }

  /** The gap as it is read: a colon that closes the group before it is read with that group, a first one is passed over. */
  lemma ShortGapped(s: string, a: Bytes, gs: seq<string>, x: Bytes, hs: seq<string>, y: Bytes)
    requires Short(s, a, gs, x, hs, y)
    ensures gs == [] ==> |s| > 1 && s[0] == s[1] == ':' && Gapped(s[1..], gs, x, hs, y)
    ensures gs != [] ==> s != "" && s[0] != ':' && Gapped(s, gs, x, hs, y)
  {
    hide Spell, Group;
    if gs == [] {
      assert s == "::" + Join(hs) && s[1..] == "" + ":" + Join(hs);
    } else {
      assert s == Join(gs) + ("::" + Join(hs)) && s == (Join(gs) + ":") + ":" + Join(hs);
      ColonFirst(s, gs, x, "::" + Join(hs), false);
    }
  }

  lemma ShortRead(s: string, a: Bytes, gs: seq<string>, x: Bytes, hs: seq<string>, y: Bytes)
    requires Short(s, a, gs, x, hs, y)
    ensures Parse6(s) == Some(a)
  {
    SpreadGap(x, y, a);
    ShortGapped(s, a, gs, x, hs, y);
    hide Scan6, Spell, Join, Spread, Gapped, Zeros;
    HeadRead(if gs == [] then s[1..] else s, gs, x, hs, y, []);
    assert [] + x + y == x + y;
  }

  lemma StartsWithGap(start: string, gap: bool, gs: seq<string>, x: Bytes, hs: seq<string>, y: Bytes)
    requires start != "" && start[0] == ':' && (if gap then Gapped(start, gs, x, hs, y) else Whole(start, gs, x))
    ensures gap && gs == []
  {
    SpellText(gs, x, !gap);
    hide Spell, Join;
  }

  lemma GappedShort(s: string, a: Bytes, gs: seq<string>, x: Bytes, hs: seq<string>, y: Bytes)
    requires |x| + |y| < 16 && a == x + Zeros(16 - |x| - |y|) + y
    requires if s != "" && s[0] == ':' then gs == [] && Gapped(s[1..], gs, x, hs, y) else Gapped(s, gs, x, hs, y)
    ensures Short(s, a, gs, x, hs, y)
  {
    hide Spell, Zeros;
    if s != "" && s[0] == ':' {
      assert s == ":" + s[1..] && s == "" + "::" + Join(hs);
    } else {
      assert s == (Join(gs) + ":") + ":" + Join(hs) && s == Join(gs) + "::" + Join(hs);
    }
  }

  lemma ReadSpells(s: string, a: Bytes)
    requires Parse6(s) == Some(a)
    ensures Spells(s, a)
  {
    var start := if s != "" && s[0] == ':' then s[1..] else s;
    hide Scan6, Spell, Spread, Zeros, Gapped, Join, Short;
    var gap, gs, x, hs, y := HeadGiven(start, []);
    assert [] + x == x && [] + x + y == x + y;
    SpreadGap(x, y, a);
    if s != "" && s[0] == ':' { StartsWithGap(start, gap, gs, x, hs, y); }
    if gap { GappedShort(s, a, gs, x, hs, y); } else { assert Full(s, a, gs); }
  }

  /**
   inet_pton6 reads a text as an address exactly when the text spells it: eight
   groups of one to four hex digits, the last two of which may be an IPv4
   address, or fewer with one gap of two colons in place of the zeros left out.
   */
  lemma Parse6Iff(s: string, a: Bytes)
    ensures Parse6(s) == Some(a) <==> Spells(s, a)
  {
    if Parse6(s) == Some(a) { ReadSpells(s, a); }
    if Spells(s, a) {
      if gs :| Full(s, a, gs) {
        FullRead(s, a, gs);
      } else {
        var gs, x, hs, y :| Short(s, a, gs, x, hs, y);
        ShortRead(s, a, gs, x, hs, y);
      }
    }
    hide Parse6, Full, Short;
  }
}
