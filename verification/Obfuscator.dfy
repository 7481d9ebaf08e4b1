/** `decode_utf8`, `unicodeEscape`, `obfuscateMain`, and what they mean to a reader of the text. */
module Obfuscator {
  import opened Outcomes
  import opened Words
  import opened JsonPrinter
  import opened JsonParser
  import opened Minifier

  // ----- the code's functions

  function DecodeUtf8(e: string): (cc: int)
    ensures -128 <= cc < 0x200000
  {
    var b := ByteOf(e, 0);
    if b / 32 == 6 then b % 32 * 64 + ByteOf(e, 1) % 64
    else if b / 16 == 14 then b % 16 * 4096 + ByteOf(e, 1) % 64 * 64 + ByteOf(e, 2) % 64
    else if b / 8 == 30 then b % 8 * 262144 + ByteOf(e, 1) % 64 * 4096 + ByteOf(e, 2) % 64 * 64 + ByteOf(e, 3) % 64
    else if b < 128 then b
    else b - 256
  }

  /** How many bytes `unicodeEscape` takes for the byte it stands on. */
  function CodeWidth(b: int): (w: nat)
    ensures 1 <= w <= 4
  {
    if b / 32 == 6 then 2 else if b / 16 == 14 then 3 else if b / 8 == 30 then 4 else 1
  }

  /** One or two `\u` escapes; a negative number prints as the eight digits of its two's complement. */
  function EscapeUnit(cc: int): string
    requires -128 <= cc < 0x200000
  {
    if cc > 65535 then "\\u" + Hex4(55296 + cc / 1024) + ("\\u" + Hex4(56320 + cc % 1024))
    else if cc >= 0 then "\\u" + Hex4(cc)
    else "\\u" + "ffff" + Hex4(65536 + cc)
  }

  function Taken(s: string): (w: nat)
    requires s != ""
    ensures 0 < w <= |s|
  {
    var w := CodeWidth(ByteOf(s, 0));
    if w <= |s| then w else |s|
  }

  function UnicodeEscaped(s: string): string {
    if s == "" then ""
    else EscapeUnit(DecodeUtf8(s[..Taken(s)])) + UnicodeEscaped(s[Taken(s)..])
  }

  function FindQuote(s: string): (i: nat)
    ensures i <= |s|
    ensures '\"' !in s[..i]
    ensures i < |s| ==> s[i] == '\"'
  {
    if s == "" || s[0] == '\"' then 0
    else
      var i := 1 + FindQuote(s[1..]);
      assert s[..i] == [s[0]] + s[1..][..i - 1];
      i
  }

  /** Every text between one quote and the next is escaped, whatever backslashes say. */
  function Obfuscated(s: string): string
    decreases |s|
  {
    var i := FindQuote(s);
    if i == |s| then s
    else
      var t := s[i + 1..];
      var j := FindQuote(t);
      if j == |t| then s
      else s[..i] + ("\"" + (UnicodeEscaped(t[..j]) + ("\"" + Obfuscated(t[j + 1..]))))
  }

  // ----- the code

  lemma TakenAt(s: string, at: nat)
    requires at < |s|
    ensures var u, w := s[at..], CodeWidth(ByteOf(s, at));
            var stop := if at + w <= |s| then at + w else |s|;
            && w > 0 && at < stop && Taken(u) == stop - at
            && s[at..stop] == u[..Taken(u)] && s[stop..] == u[Taken(u)..]
  {
  }

  /** The escapes of what is left at `at`, which can lie behind the end. */
  function EscapedFrom(s: string, at: nat): string {
    if at <= |s| then UnicodeEscaped(s[at..]) else ""
  }

  /** The escapes of the bytes that are taken at `at`. */
  function UnitIn(s: string, at: nat): string
    requires at < |s|
  {
    var stop := at + CodeWidth(ByteOf(s, at));
    EscapeUnit(DecodeUtf8(s[at..if stop <= |s| then stop else |s|]))
  }

  lemma UnitAt(s: string, at: nat)
    requires at < |s|
    ensures EscapedFrom(s, at) == UnitIn(s, at) + EscapedFrom(s, at + CodeWidth(ByteOf(s, at)))
  {
    var w := CodeWidth(ByteOf(s, at));
    var stop := if at + w <= |s| then at + w else |s|;
    TakenAt(s, at);
    EscapedParts(s[at..], s[at..stop], s[stop..]);
    if at + w > |s| {
      assert s[stop..] == "";
    }
  }

  lemma Onward(done: string, s: string, at: nat)
    requires at < |s|
    ensures done + EscapedFrom(s, at) == (done + UnitIn(s, at)) + EscapedFrom(s, at + CodeWidth(ByteOf(s, at)))
  {
    UnitAt(s, at);
    Regroup(done, EscapedFrom(s, at), UnitIn(s, at), EscapedFrom(s, at + CodeWidth(ByteOf(s, at))));
  }

  lemma Regroup(done: string, whole: string, unit: string, rest: string)
    requires whole == unit + rest
    ensures done + whole == (done + unit) + rest
  {
  }

  lemma EscapedParts(u: string, e: string, rest: string)
    requires u != "" && e == u[..Taken(u)] && rest == u[Taken(u)..]
    ensures UnicodeEscaped(u) == EscapeUnit(DecodeUtf8(e)) + UnicodeEscaped(rest)
  {
  }

  lemma FromStart(s: string)
    ensures "" + EscapedFrom(s, 0) == UnicodeEscaped(s)
  {
    assert s[0..] == s;
  }

  lemma FromEnd(s: string, at: nat)
    requires at >= |s|
    ensures EscapedFrom(s, at) == ""
  {
  }

  /** The loop of `unicodeEscape`; `at` can pass the end when a sequence is cut short. */
  method UnicodeEscape(s: string) returns (output: string)
    ensures output == UnicodeEscaped(s)
  {
    output := "";
    var at := 0;
    FromStart(s);
    while at < |s|
      invariant 0 <= at
      invariant UnicodeEscaped(s) == output + EscapedFrom(s, at)
    {
      Onward(output, s, at);
      output := output + UnitIn(s, at);
      at := at + CodeWidth(ByteOf(s, at));
    }
    FromEnd(s, at);
    assert output + "" == output;
  }

  method IndexOfQuote(s: string) returns (i: nat)
    ensures i == FindQuote(s)
  {
    i := 0;
    while i < |s| && s[i] != '\"'
      invariant i <= |s| && FindQuote(s) == i + FindQuote(s[i..])
    {
      assert s[i..][1..] == s[i + 1..];
      i := i + 1;
    }
  }

  method ObfuscateMain(input: string, doMinify: bool) returns (r: Result<string>)
    ensures r == if doMinify then Minified(Obfuscated(input)) else Ok(Obfuscated(input))
  {
    var output, rest := "", input;
    var i := IndexOfQuote(rest);
    var j := 0;
    if i < |rest| {
      j := IndexOfQuote(rest[i + 1..]);
    }
    while i < |rest| && i + 1 + j < |rest|
      invariant i == FindQuote(rest) && (i < |rest| ==> j == FindQuote(rest[i + 1..]))
      invariant output + Obfuscated(rest) == Obfuscated(input)
      decreases |rest|
    {
      var t := rest[i + 1..];
      var body := UnicodeEscape(t[..j]);
      Assoc5(output, rest[..i], "\"", body, "\"", Obfuscated(t[j + 1..]));
      output := output + rest[..i];
      output := output + "\"";
      output := output + body;
      output := output + "\"";
      rest := t[j + 1..];
      i := IndexOfQuote(rest);
      if i < |rest| {
        j := IndexOfQuote(rest[i + 1..]);
      }
    }
    output := output + rest;
    if doMinify {
      r := Minify(output);
    } else {
      r := Ok(output);
    }
  }

  lemma Assoc5(o: string, a: string, b: string, c: string, d: string, e: string)
    ensures o + (a + (b + (c + (d + e)))) == o + a + b + c + d + e
  {
  }

  lemma StrayWidth(c: char)
    requires 0x80 <= c as int <= 0xBF || 0xF8 <= c as int <= 0xFF
    ensures CodeWidth(ByteOf([c], 0)) == 1 && DecodeUtf8([c]) == c as int - 256
  {
  }

  lemma LastHexDigit(q: nat, r: nat, n: nat)
    requires r < 16 && n == q * 16 + r
    ensures n / 16 == q && n % 16 == r
  {
  }

  lemma HexTail(n: nat, b: nat)
    requires n == 65280 + b && b < 256
    ensures Hex4(n) == ['f', 'f', HEX[b / 16], HEX[b % 16]]
  {
    LastHexDigit(4080 + b / 16, b % 16, n);
    LastHexDigit(255, b / 16, n / 16);
    assert n / 256 == 255 && n / 4096 == 15;
  }

  lemma NegativeUnit(cc: int, b: nat)
    requires -128 <= cc < 0 && b == cc + 256
    ensures EscapeUnit(cc) == "\\u" + "ffff" + ['f', 'f', HEX[b / 16], HEX[b % 16]]
  {
    HexTail(65536 + cc, b);
  }

  /** A byte that neither is ASCII nor leads a sequence prints as the eight digits of a negative number. */
  lemma StrayByte(c: char, rest: string)
    requires 0x80 <= c as int <= 0xBF || 0xF8 <= c as int <= 0xFF
    ensures UnicodeEscaped([c] + rest)
         == "\\u" + "ffff" + ['f', 'f', HEX[c as int / 16], HEX[c as int % 16]] + UnicodeEscaped(rest)
  {
    var s := [c] + rest;
    StrayWidth(c);
    NegativeUnit(c as int - 256, c as int);
    assert ByteOf(s, 0) == ByteOf([c], 0) && Taken(s) == 1 && s[..1] == [c] && s[1..] == rest;
    EscapedParts(s, [c], rest);
  }

  // ----- RFC 3629 section 4: the valid sequences and their code points

  predicate Tail(c: char) {
    0x80 <= c as int <= 0xBF
  }

  /** Length of the valid sequence at the head of `s`, or 0. */
  function Utf8Width(s: string): (w: nat)
    ensures w <= 4 && w <= |s|
  {
    if s == "" then 0
    else
      var b := s[0] as int;
      if b <= 0x7F then 1
      else if |s| < 2 || !Tail(s[1]) then 0
      else
        var c := s[1] as int;
        if 0xC2 <= b <= 0xDF then 2
        else if |s| < 3 || !Tail(s[2]) then 0
        else if (b == 0xE0 && 0xA0 <= c) || 0xE1 <= b <= 0xEC || (b == 0xED && c <= 0x9F) || 0xEE <= b <= 0xEF then 3
        else if |s| < 4 || !Tail(s[3]) then 0
        else if (b == 0xF0 && 0x90 <= c) || 0xF1 <= b <= 0xF3 || (b == 0xF4 && c <= 0x8F) then 4
        else 0
  }

  function Utf8Point(s: string): (p: int)
    requires Utf8Width(s) > 0
    ensures 0 <= p <= 0x10FFFF
  {
    var b, w := s[0] as int, Utf8Width(s);
    if w == 1 then b
    else if w == 2 then (b - 0xC0) * 64 + (s[1] as int - 0x80)
    else if w == 3 then (b - 0xE0) * 4096 + (s[1] as int - 0x80) * 64 + (s[2] as int - 0x80)
    else (b - 0xF0) * 262144 + (s[1] as int - 0x80) * 4096 + (s[2] as int - 0x80) * 64 + (s[3] as int - 0x80)
  }

  function PrependPoints(head: seq<int>, r: Result<seq<int>>): Result<seq<int>> {
    if r.Throw? then Throw else Ok(head + r.value)
  }

  /** The code points of a text, read as plain UTF-8. */
  function CodePoints(s: string): Result<seq<int>>
    decreases |s|
  {
    if s == "" then Ok([])
    else if Utf8Width(s) == 0 then Throw
    else PrependPoints([Utf8Point(s)], CodePoints(s[Utf8Width(s)..]))
  }

  // ----- RFC 8259 section 7: what the body of a string literal means

  predicate IsHex4(s: string) {
    |s| == 4 && forall i | 0 <= i < 4 :: HexDigit(s[i]) >= 0
  }

  function Hex4Value(s: string): int
    requires IsHex4(s)
  {
    HexDigit(s[0]) * 4096 + HexDigit(s[1]) * 256 + HexDigit(s[2]) * 16 + HexDigit(s[3])
  }

  /** A `\uXXXX` at the head of `s`. */
  predicate HasUnit(s: string) {
    |s| >= 6 && s[0] == '\\' && s[1] == 'u' && IsHex4(s[2..6])
  }

  function Unit(s: string): int
    requires HasUnit(s)
  {
    Hex4Value(s[2..6])
  }

  predicate High(u: int) {
    0xD800 <= u <= 0xDBFF
  }

  predicate Low(u: int) {
    0xDC00 <= u <= 0xDFFF
  }

  function LetterMeaning(c: char): int {
    match c
    case '\"' => 0x22
    case '\\' => 0x5C
    case '/' => 0x2F
    case 'b' => 8
    case 'f' => 12
    case 'n' => 10
    case 'r' => 13
    case 't' => 9
    case _ => -1
  }

  /** The code point that a surrogate pair stands for. */
  function PairPoint(high: int, low: int): int {
    0x10000 + (high - 0xD800) * 0x400 + (low - 0xDC00)
  }

  /** One character of a string body: its code point and how many bytes it takes. */
  datatype Head = Bad | Head(point: int, k: nat)

  /** A surrogate that is not half of a pair stands for itself. */
  function HeadOf(s: string): (h: Head)
    requires s != ""
    ensures h.Head? ==> 0 < h.k <= |s|
  {
    if s[0] == '\\' then
      if HasUnit(s) then
        if High(Unit(s)) && HasUnit(s[6..]) && Low(Unit(s[6..])) then Head(PairPoint(Unit(s), Unit(s[6..])), 12)
        else Head(Unit(s), 6)
      else if |s| >= 2 && LetterMeaning(s[1]) >= 0 then Head(LetterMeaning(s[1]), 2)
      else Bad
    else if s[0] == '\"' || s[0] as int < 0x20 || Utf8Width(s) == 0 then Bad
    else Head(Utf8Point(s), Utf8Width(s))
  }

  function Meaning(s: string): Result<seq<int>>
    decreases |s|
  {
    if s == "" then Ok([])
    else
      match HeadOf(s)
      case Bad => Throw
      case Head(point, k) => PrependPoints([point], Meaning(s[k..]))
  }

  // ----- the escapes of one code point

  lemma HexDigitBack(d: nat)
    requires d < 16
    ensures HexDigit(HEX[d]) == d
  {
  }

  lemma HexBack(n: nat)
    requires n < 0x10000
    ensures IsHex4(Hex4(n)) && Hex4Value(Hex4(n)) == n
  {
    HexDigitBack(n / 4096);
    HexDigitBack(n / 256 % 16);
    HexDigitBack(n / 16 % 16);
    HexDigitBack(n % 16);
    FourDigits(n);
  }

  lemma FourDigits(n: nat)
    ensures n == n / 4096 * 4096 + n / 256 % 16 * 256 + n / 16 % 16 * 16 + n % 16
  {
    assert n / 256 == n / 4096 * 16 + n / 256 % 16;
    assert n / 16 == n / 256 * 16 + n / 16 % 16;
  }

  lemma UnitPrefix(a: string, rest: string)
    requires HasUnit(a) && |a| == 6
    ensures HasUnit(a + rest) && Unit(a + rest) == Unit(a) && (a + rest)[6..] == rest
  {
    assert (a + rest)[2..6] == a[2..6];
  }

  lemma UnitBack(n: nat)
    requires n < 0x10000
    ensures HasUnit("\\u" + Hex4(n)) && Unit("\\u" + Hex4(n)) == n
  {
    HexBack(n);
    assert ("\\u" + Hex4(n))[2..6] == Hex4(n);
  }

  /** A code point of valid UTF-8. */
  predicate IsScalar(p: int) {
    0 <= p < 0xD800 || 0xE000 <= p <= 0x10FFFF
  }

  lemma PointRange(s: string)
    requires Utf8Width(s) > 0
    ensures IsScalar(Utf8Point(s))
    ensures Utf8Point(s) > 0xFFFF <==> s[0] as int >= 0xF0
  {
  }

  lemma WidthAgrees(s: string)
    requires Utf8Width(s) > 0
    ensures CodeWidth(ByteOf(s, 0)) == Utf8Width(s) && Taken(s) == Utf8Width(s)
  {
  }

  lemma DecodeAgrees(s: string)
    requires Utf8Width(s) > 0
    ensures DecodeUtf8(s[..Utf8Width(s)]) == Utf8Point(s)
  {
    WidthAgrees(s);
    var e := s[..Utf8Width(s)];
    assert forall i | 0 <= i < |e| :: ByteOf(e, i) == s[i] as int;
  }

  lemma PointIsScalar(s: string)
    requires Utf8Width(s) > 0
    ensures IsScalar(Utf8Point(s))
    ensures Utf8Point(s) > 0xFFFF <==> s[0] as int >= 0xF0
    ensures CodeWidth(ByteOf(s, 0)) == Utf8Width(s) && Taken(s) == Utf8Width(s)
    ensures DecodeUtf8(s[..Utf8Width(s)]) == Utf8Point(s)
  {
    PointRange(s);
    WidthAgrees(s);
    DecodeAgrees(s);
  }

  /** What a decoder reads from the escapes of `p`: above U+FFFF the code forgets to subtract 0x10000. */
  function Read(p: int): seq<int> {
    if p <= 0xFFFF then [p]
    else if p < 0x100000 then [p + 0x10000]
    else [55296 + p / 1024, 56320 + p % 1024]
  }

  lemma OneUnitMeaning(a: string, rest: string)
    requires |a| == 6 && HasUnit(a) && !High(Unit(a))
    ensures Meaning(a + rest) == PrependPoints([Unit(a)], Meaning(rest))
  {
    UnitPrefix(a, rest);
    assert HeadOf(a + rest) == Head(Unit(a), 6);
  }

  lemma PairHead(a: string, b: string, rest: string)
    requires |a| == |b| == 6 && HasUnit(a) && HasUnit(b) && High(Unit(a)) && Low(Unit(b))
    ensures HeadOf(a + (b + rest)) == Head(PairPoint(Unit(a), Unit(b)), 12)
  {
    UnitPrefix(a, b + rest);
    UnitPrefix(b, rest);
  }

  lemma PairMeaning(a: string, b: string, rest: string)
    requires |a| == |b| == 6 && HasUnit(a) && HasUnit(b) && High(Unit(a)) && Low(Unit(b))
    ensures Meaning(a + (b + rest)) == PrependPoints([PairPoint(Unit(a), Unit(b))], Meaning(rest))
  {
    PairHead(a, b, rest);
    assert (a + (b + rest))[12..] == rest;
  }

  lemma PrependTwice(u: int, v: int, r: Result<seq<int>>)
    ensures PrependPoints([u], PrependPoints([v], r)) == PrependPoints([u, v], r)
  {
    assert r.Ok? ==> [u] + ([v] + r.value) == [u, v] + r.value;
  }

  lemma TwoUnitsMeaning(a: string, b: string, rest: string)
    requires |a| == |b| == 6 && HasUnit(a) && HasUnit(b) && Low(Unit(a)) && Low(Unit(b))
    ensures Meaning(a + (b + rest)) == PrependPoints([Unit(a), Unit(b)], Meaning(rest))
  {
    OneUnitMeaning(a, b + rest);
    OneUnitMeaning(b, rest);
    PrependTwice(Unit(a), Unit(b), Meaning(rest));
  }

  lemma AstralPoint(p: int)
    requires 0xFFFF < p <= 0x10FFFF
    ensures var high, low := 55296 + p / 1024, 56320 + p % 1024;
            && Low(low)
            && if p < 0x100000 then High(high) && Read(p) == [PairPoint(high, low)]
               else Low(high) && Read(p) == [high, low]
  {
  }

  lemma AstralMeaning(p: int, a: string, b: string, rest: string)
    requires 0xFFFF < p <= 0x10FFFF
    requires |a| == |b| == 6 && HasUnit(a) && HasUnit(b)
    requires Unit(a) == 55296 + p / 1024 && Unit(b) == 56320 + p % 1024
    ensures Meaning(a + (b + rest)) == PrependPoints(Read(p), Meaning(rest))
  {
    AstralPoint(p);
    if p < 0x100000 {
      PairMeaning(a, b, rest);
    } else {
      TwoUnitsMeaning(a, b, rest);
    }
  }

  /** How many units the escapes of `p` are, and which. */
  lemma EscapeUnitParts(p: int) returns (a: string, b: string)
    requires 0 <= p <= 0x10FFFF
    ensures |a| == 6 && HasUnit(a) && EscapeUnit(p) == a + b
    ensures p <= 0xFFFF ==> b == "" && Unit(a) == p
    ensures p > 0xFFFF ==> |b| == 6 && HasUnit(b) && Unit(a) == 55296 + p / 1024 && Unit(b) == 56320 + p % 1024
  {
    if p <= 0xFFFF {
      UnitBack(p);
      a, b := EscapeUnit(p), "";
    } else {
      UnitBack(55296 + p / 1024);
      UnitBack(56320 + p % 1024);
      a, b := "\\u" + Hex4(55296 + p / 1024), "\\u" + Hex4(56320 + p % 1024);
    }
  }

  lemma BothUnits(e: string, a: string, b: string, rest: string)
    requires e == a + b
    ensures e + rest == a + (b + rest)
  {
  }

  lemma AstralEscape(p: int, rest: string)
    requires 0xFFFF < p <= 0x10FFFF
    ensures Meaning(EscapeUnit(p) + rest) == PrependPoints(Read(p), Meaning(rest))
  {
    var a, b := EscapeUnitParts(p);
    AstralMeaning(p, a, b, rest);
    BothUnits(EscapeUnit(p), a, b, rest);
  }

  lemma EscapeUnitMeaning(p: int, rest: string)
    requires IsScalar(p)
    ensures Meaning(EscapeUnit(p) + rest) == PrependPoints(Read(p), Meaning(rest))
  {
    if p <= 0xFFFF {
      UnitBack(p);
      OneUnitMeaning(EscapeUnit(p), rest);
    } else {
      AstralEscape(p, rest);
    }
  }

  function ReadAll(ps: seq<int>): seq<int> {
    if ps == [] then [] else Read(ps[0]) + ReadAll(ps[1..])
  }

  predicate AllBmp(ps: seq<int>) {
    forall i | 0 <= i < |ps| :: ps[i] <= 0xFFFF
  }

  lemma AllBmpCons(p: int, ps: seq<int>)
    ensures AllBmp([p] + ps) <==> p <= 0xFFFF && AllBmp(ps)
  {
    assert ([p] + ps)[0] == p && forall i | 0 <= i < |ps| :: ([p] + ps)[i + 1] == ps[i];
  }

  lemma {:induction false} ReadAllIsIdentity(ps: seq<int>)
    ensures |ReadAll(ps)| >= |ps|
    ensures ReadAll(ps) == ps <==> AllBmp(ps)
  {
    if ps != [] {
      ReadAllIsIdentity(ps[1..]);
      assert ps == [ps[0]] + ps[1..];
      AllBmpCons(ps[0], ps[1..]);
      if ps[0] <= 0xFFFF {
        assert ReadAll(ps)[1..] == ReadAll(ps[1..]);
      } else {
        assert ReadAll(ps)[0] == Read(ps[0])[0] != ps[0];
      }
    }
  }

  /** A JSON reader gets from the escaped text of valid UTF-8 its code points, each as `Read` says. */
  lemma {:induction false} EscapedMeaning(s: string)
    requires CodePoints(s).Ok?
    ensures Meaning(UnicodeEscaped(s)) == Ok(ReadAll(CodePoints(s).value))
    decreases |s|
  {
    if s != "" {
      var rest := s[Utf8Width(s)..];
      PointIsScalar(s);
      EscapedMeaning(rest);
      EscapeUnitMeaning(Utf8Point(s), UnicodeEscaped(rest));
      var ps := CodePoints(s).value;
      assert ps[0] == Utf8Point(s) && ps[1..] == CodePoints(rest).value;
    }
  }

  /** No byte of `s` leads a four-byte sequence. */
  predicate NoFourByteLead(s: string) {
    forall c | c in s :: (c as int) < 0xF0
  }

  lemma HeadHasNoFourByteLead(s: string)
    requires Utf8Width(s) > 0
    ensures NoFourByteLead(s[..Utf8Width(s)]) <==> s[0] as int < 0xF0
  {
    var t := s[..Utf8Width(s)];
    assert t[0] in t;
    assert forall i | 0 < i < |t| :: Tail(t[i]);
  }

  lemma NoFourByteLeadConcat(a: string, b: string)
    ensures NoFourByteLead(a + b) <==> NoFourByteLead(a) && NoFourByteLead(b)
  {
    assert forall c :: c in a + b <==> c in a || c in b;
  }

  lemma FirstPointBmp(s: string)
    requires s != "" && CodePoints(s).Ok?
    ensures AllBmp(CodePoints(s).value) <==> s[0] as int < 0xF0 && AllBmp(CodePoints(s[Utf8Width(s)..]).value)
  {
    PointRange(s);
    AllBmpCons(Utf8Point(s), CodePoints(s[Utf8Width(s)..]).value);
  }

  lemma FirstLead(s: string)
    requires Utf8Width(s) > 0
    ensures NoFourByteLead(s) <==> s[0] as int < 0xF0 && NoFourByteLead(s[Utf8Width(s)..])
  {
    var w := Utf8Width(s);
    HeadHasNoFourByteLead(s);
    assert s == s[..w] + s[w..];
    NoFourByteLeadConcat(s[..w], s[w..]);
  }

  lemma {:induction false} FourByteLeads(s: string)
    requires CodePoints(s).Ok?
    ensures AllBmp(CodePoints(s).value) <==> NoFourByteLead(s)
    decreases |s|
  {
    if s != "" {
      FourByteLeads(s[Utf8Width(s)..]);
      FirstPointBmp(s);
      FirstLead(s);
    }
  }

  // ----- when escaping keeps the meaning of a literal

  predicate NoBackslash(s: string) {
    '\\' !in s
  }

  /** A run of plain ASCII is one code point a byte. */
  lemma {:induction false} AsciiRun(s: string, k: nat)
    requires k <= |s| && forall i | 0 <= i < k :: s[i] as int <= 0x7F
    ensures CodePoints(s[k..]).Ok? ==> CodePoints(s).Ok? && |CodePoints(s).value| == k + |CodePoints(s[k..]).value|
  {
    if k == 0 {
      assert s[0..] == s;
    } else {
      assert s[1..][k - 1..] == s[k..];
      AsciiRun(s[1..], k - 1);
    }
  }

  /** Read as plain UTF-8 a literal has at least as many code points as it means, and more if it has escapes. */
  lemma {:induction false} RawIsLonger(s: string)
    requires Meaning(s).Ok?
    ensures CodePoints(s).Ok?
    ensures NoBackslash(s) ==> CodePoints(s) == Meaning(s)
    ensures |Meaning(s).value| <= |CodePoints(s).value|
    ensures !NoBackslash(s) ==> |Meaning(s).value| < |CodePoints(s).value|
    decreases |s|
  {
    if s != "" {
      var k := HeadOf(s).k;
      assert s == s[..k] + s[k..];
      RawIsLonger(s[k..]);
      assert NoBackslash(s) <==> NoBackslash(s[..k]) && NoBackslash(s[k..]);
      if s[0] == '\\' {
        assert s[0] in s;
        HeadIsAscii(s);
        AsciiRun(s, k);
      } else {
        HeadHasNoBackslash(s);
      }
    }
  }

  lemma HeadHasNoBackslash(s: string)
    requires Utf8Width(s) > 0 && s[0] != '\\'
    ensures NoBackslash(s[..Utf8Width(s)])
  {
    var t := s[..Utf8Width(s)];
    assert forall i | 0 < i < |t| :: Tail(t[i]);
  }

  lemma HeadIsAscii(s: string)
    requires s != "" && s[0] == '\\' && HeadOf(s).Head?
    ensures HeadOf(s).k >= 2 && forall i | 0 <= i < HeadOf(s).k :: s[i] as int <= 0x7F
  {
    if HasUnit(s) {
      UnitIsAscii(s);
      if HeadOf(s).k == 12 {
        UnitIsAscii(s[6..]);
        assert forall i | 6 <= i < 12 :: s[i] == s[6..][i - 6];
      }
    }
  }

  lemma UnitIsAscii(s: string)
    requires HasUnit(s)
    ensures forall i | 0 <= i < 6 :: s[i] as int <= 0x7F
  {
    assert forall i | 2 <= i < 6 :: s[i] == s[2..6][i - 2];
  }

  /**
   Escaping a literal that means something to a JSON reader leaves its meaning alone exactly when it holds
   no backslash and no four-byte sequence, the lead bytes of which are 0xF0 and above.
   */
  lemma MeaningKept(body: string)
    requires Meaning(body).Ok?
    ensures Meaning(UnicodeEscaped(body)) == Meaning(body)
       <==> NoBackslash(body) && NoFourByteLead(body)
  {
    RawIsLonger(body);
    EscapedMeaning(body);
    ReadAllIsIdentity(CodePoints(body).value);
    FourByteLeads(body);
  }

  // ----- quotes in a literal

  /** What comes before an ASCII byte of valid UTF-8 is valid UTF-8. */
  lemma {:induction false} PrefixReadable(s: string, j: nat)
    requires CodePoints(s).Ok? && j < |s| && s[j] as int <= 0x7F
    ensures CodePoints(s[..j]).Ok?
    decreases |s|
  {
    if j > 0 {
      var w := Utf8Width(s);
      assert j >= w && Utf8Width(s[..j]) == w;
      assert s[..j][w..] == s[w..][..j - w];
      PrefixReadable(s[w..], j - w);
    }
  }

  lemma ReadHasNoQuote(s: string)
    requires Utf8Width(s) > 0 && s[0] != '\"'
    ensures 0x22 !in Read(Utf8Point(s))
  {
  }

  /** Escaping makes no quote. */
  lemma {:induction false} NoQuoteRead(s: string)
    requires CodePoints(s).Ok? && '\"' !in s
    ensures 0x22 !in ReadAll(CodePoints(s).value)
    decreases |s|
  {
    if s != "" {
      var ps := CodePoints(s).value;
      ReadHasNoQuote(s);
      NoQuoteRead(s[Utf8Width(s)..]);
      assert ps[0] == Utf8Point(s) && ps[1..] == CodePoints(s[Utf8Width(s)..]).value;
    }
  }

  /** The first character of a literal, if it does not mean a quote, has no quote among its bytes. */
  lemma HeadHasNoQuote(s: string)
    requires s != "" && HeadOf(s).Head? && HeadOf(s).point != 0x22
    ensures '\"' !in s[..HeadOf(s).k]
  {
    var t := s[..HeadOf(s).k];
    if s[0] == '\\' {
      if HasUnit(s) {
        UnitHasNoQuote(s);
        if HeadOf(s).k == 12 {
          UnitHasNoQuote(s[6..]);
          assert forall i | 6 <= i < 12 :: s[i] == s[6..][i - 6];
        }
      }
    } else {
      assert forall i | 0 < i < |t| :: Tail(t[i]);
    }
  }

  lemma UnitHasNoQuote(s: string)
    requires HasUnit(s)
    ensures forall i | 0 <= i < 6 :: s[i] != '\"'
  {
    assert forall i | 2 <= i < 6 :: s[i] == s[2..6][i - 2];
  }

  /** A quote in a literal, which can only be an escaped one, means a quote. */
  lemma {:induction false} QuoteMeant(s: string)
    requires Meaning(s).Ok? && '\"' in s
    ensures 0x22 in Meaning(s).value
    decreases |s|
  {
    var h := HeadOf(s);
    if h.point != 0x22 {
      HeadHasNoQuote(s);
      assert s == s[..h.k] + s[h.k..];
      QuoteMeant(s[h.k..]);
    }
  }

  /** What comes before the first quote of a literal means, once escaped, something else than the literal. */
  lemma CutLosesMeaning(body: string, j: nat)
    requires Meaning(body).Ok? && j < |body| && body[j] == '\"' && '\"' !in body[..j]
    ensures Meaning(UnicodeEscaped(body[..j])) != Meaning(body)
  {
    RawIsLonger(body);
    PrefixReadable(body, j);
    EscapedMeaning(body[..j]);
    NoQuoteRead(body[..j]);
    assert body[j] in body;
    QuoteMeant(body);
  }

  /** A literal of one four-byte sequence means one code point. */
  lemma FourBytesMean(body: string)
    requires |body| == 4 && Utf8Width(body) == 4 && body[0] as int >= 0xF0
    ensures Meaning(body) == Ok([Utf8Point(body)])
  {
    assert HeadOf(body) == Head(Utf8Point(body), 4);
    assert body[4..] == "" && [Utf8Point(body)] + [] == [Utf8Point(body)];
  }

  /** And after escaping it can still be read, but means something else. */
  lemma FourBytesLoseMeaning(body: string)
    requires |body| == 4 && Utf8Width(body) == 4 && body[0] as int >= 0xF0
    ensures Meaning(UnicodeEscaped(body)).Ok? && Meaning(UnicodeEscaped(body)) != Meaning(body)
  {
    FourBytesMean(body);
    MeaningKept(body);
    RawIsLonger(body);
    EscapedMeaning(body);
    assert body[0] in body;
  }

  /** The bytes F0 9F 98 80. */
  lemma SmileyLosesMeaning()
    ensures var smiley := ['\U{F0}', '\U{9F}', '\U{98}', '\U{80}'];
            Meaning(smiley) == Ok([0x1F600]) && Meaning(UnicodeEscaped(smiley)) != Meaning(smiley)
  {
    var smiley := ['\U{F0}', '\U{9F}', '\U{98}', '\U{80}'];
    SmileyPoint(smiley);
    FourBytesMean(smiley);
    FourBytesLoseMeaning(smiley);
  }

  lemma SmileyPoint(s: string)
    requires |s| == 4 && s[0] as int == 0xF0 && s[1] as int == 0x9F && s[2] as int == 0x98 && s[3] as int == 0x80
    ensures Utf8Width(s) == 4 && Utf8Point(s) == 0x1F600
  {
  }
}
