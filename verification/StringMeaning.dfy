/** What the printer's and the parser's strings mean to a reader that follows RFC 8259 section 7. */
module StringMeaning {
  import opened Outcomes
  import opened JsonPrinter
  import opened JsonParser
  import opened Obfuscator

  // ----- valid UTF-8 behind valid UTF-8

  lemma WidthInFront(s: string, rest: string)
    requires Utf8Width(s) > 0
    ensures Utf8Width(s + rest) == Utf8Width(s) && Utf8Point(s + rest) == Utf8Point(s)
  {
  }

  /** A whole character in front of any text. */
  lemma PointInFront(a: string, rest: string)
    requires Utf8Width(a) == |a| > 0
    ensures CodePoints(a + rest) == PrependPoints([Utf8Point(a)], CodePoints(rest))
  {
    WidthInFront(a, rest);
    assert (a + rest)[|a|..] == rest;
  }

  lemma ByteInFront(c: char, rest: string)
    requires c as int <= 0x7F
    ensures CodePoints([c] + rest) == PrependPoints([c as int], CodePoints(rest))
  {
    PointInFront([c], rest);
  }

  lemma HeadWhole(s: string)
    requires Utf8Width(s) > 0
    ensures var a := s[..Utf8Width(s)]; Utf8Width(a) == |a| && Utf8Point(a) == Utf8Point(s)
  {
  }

  // ----- reading: a body that a JSON reader understands, read by `unescapify`

  /** No escape of the body is a `\u`. */
  predicate NoUnicode(body: string)
    decreases |body|
  {
    if body == "" then true
    else if body[0] == '\\' && |body| >= 2 then body[1] != 'u' && NoUnicode(body[2..])
    else NoUnicode(body[1..])
  }

  predicate Straight(s: string) {
    '\\' !in s
  }

  lemma {:induction false} StraightUnescaped(a: string, rest: string)
    requires Straight(a)
    ensures Unescape(a + rest) == Prepend(a, Unescape(rest))
    ensures NoUnicode(a + rest) <==> NoUnicode(rest)
  {
    if a == "" {
      assert a + rest == rest && forall x: string :: "" + x == x;
    } else {
      assert a[0] in a && (a + rest)[1..] == a[1..] + rest;
      StraightUnescaped(a[1..], rest);
      JsonParser.PrependTwice([a[0]], a[1..], Unescape(rest));
      assert [a[0]] + a[1..] == a;
    }
  }

  lemma LetterUnescaped(body: string)
    requires |body| >= 2 && body[0] == '\\' && LetterMeaning(body[1]) >= 0
    ensures Unescape(body) == Prepend([LetterMeaning(body[1]) as char], Unescape(body[2..]))
    ensures LetterMeaning(body[1]) <= 0x7F && (NoUnicode(body) <==> NoUnicode(body[2..]))
  {
  }

  /** How the two readings of a body compare: `m` the meaning, `r` what `unescapify` makes of it. */
  ghost predicate Compares(r: Result<string>, m: seq<int>, plain: bool) {
    && (plain ==> r.Ok? && CodePoints(r.value) == Ok(m))
    && (r.Ok? && CodePoints(r.value).Ok? ==> |CodePoints(r.value).value| >= |m| + if plain then 0 else 1)
  }

  /** One character more in front of both. */
  lemma ComparesOne(a: string, r: Result<string>, m: seq<int>, plain: bool)
    requires Utf8Width(a) == |a| > 0 && Compares(r, m, plain)
    ensures Compares(Prepend(a, r), [Utf8Point(a)] + m, plain)
  {
    if r.Ok? {
      PointInFront(a, r.value);
    }
  }

  /** Four digits where one character was meant. */
  lemma ComparesDigits(d: string, r: Result<string>, m: seq<int>, p: int, plain: bool)
    requires IsHex4(d) && Compares(r, m, plain)
    ensures Compares(Prepend(d, r), [p] + m, false)
  {
    if r.Ok? {
      DigitsInFront(d, r.value);
    }
  }

  lemma {:induction false} AsciiInFront(a: string, rest: string)
    requires forall i | 0 <= i < |a| :: a[i] as int <= 0x7F
    ensures CodePoints(a + rest).Ok? <==> CodePoints(rest).Ok?
    ensures CodePoints(rest).Ok? ==> |CodePoints(a + rest).value| == |a| + |CodePoints(rest).value|
  {
    if a == "" {
      assert a + rest == rest;
    } else {
      ByteInFront(a[0], a[1..] + rest);
      AsciiInFront(a[1..], rest);
      assert [a[0]] + (a[1..] + rest) == a + rest;
    }
  }

  lemma DigitsInFront(d: string, rest: string)
    requires IsHex4(d)
    ensures CodePoints(d + rest).Ok? <==> CodePoints(rest).Ok?
    ensures CodePoints(rest).Ok? ==> |CodePoints(d + rest).value| == 4 + |CodePoints(rest).value|
  {
    AsciiInFront(d, rest);
  }

  lemma DigitsStraight(d: string)
    requires IsHex4(d)
    ensures Straight(d) && d[0] as int <= 0x7F
  {
  }

  /** A `\u` escape is dropped, or leaves one byte or a throw; its digits are read as text. */
  lemma UnicodeUnescaped(body: string)
    requires HasUnit(body)
    ensures var d, rest := body[2..6], Unescape(body[6..]);
            || Unescape(body) == Prepend(d, rest) || Unescape(body) == Throw
            || exists c: char :: Unescape(body) == Prepend([c], Prepend(d, rest))
  {
    var d := body[2..6];
    DigitsStraight(d);
    StraightUnescaped(d, body[6..]);
    assert body[2..] == d + body[6..];
    var after := Unescape(body[2..]);
    match EscapeMeaning(body)
    case Throw =>
    case Ok(head) =>
      if head == "" {
        assert after.Ok? ==> "" + after.value == after.value;
      } else {
        assert head == [head[0]];
      }
  }

  lemma ComparesUnicode(body: string, m: seq<int>, p: int, plain: bool)
    requires HasUnit(body) && Compares(Unescape(body[6..]), m, plain)
    ensures Compares(Unescape(body), [p] + m, false)
  {
    var d, rest := body[2..6], Unescape(body[6..]);
    UnicodeUnescaped(body);
    ComparesDigits(d, rest, m, p, plain);
    if rest.Ok? && Unescape(body).Ok? && Unescape(body) != Prepend(d, rest) {
      var c: char :| Unescape(body) == Prepend([c], Prepend(d, rest));
      OddByte(c, d, rest.value);
    }
  }

  /** A byte in front of digits is a character of its own, or breaks the text. */
  lemma OddByte(c: char, d: string, rest: string)
    requires IsHex4(d)
    ensures var t := [c] + (d + rest);
            CodePoints(t).Ok? ==> CodePoints(d + rest).Ok? && |CodePoints(t).value| == 1 + |CodePoints(d + rest).value|
  {
    DigitsStraight(d);
    if c as int <= 0x7F {
      ByteInFront(c, d + rest);
    } else {
      assert Utf8Width([c] + (d + rest)) == 0;
    }
  }

  lemma {:induction false} BodyCompares(body: string)
    requires Meaning(body).Ok?
    ensures Compares(Unescape(body), Meaning(body).value, NoUnicode(body))
    decreases |body|, 1
  {
    if body != "" {
      var h := HeadOf(body);
      if HasUnit(body) {
        UnitCompares(body);
      } else if body[0] == '\\' {
        BodyCompares(body[2..]);
        LetterUnescaped(body);
        ComparesOne([LetterMeaning(body[1]) as char],
                    Unescape(body[2..]), Meaning(body[2..]).value, NoUnicode(body[2..]));
      } else {
        BodyCompares(body[h.k..]);
        HeadWhole(body);
        HeadHasNoBackslash(body);
        StraightUnescaped(body[..h.k], body[h.k..]);
        assert body == body[..h.k] + body[h.k..];
        ComparesOne(body[..h.k], Unescape(body[h.k..]), Meaning(body[h.k..]).value, NoUnicode(body[h.k..]));
      }
    }
  }

  /** A `\u` escape, which may be the first half of a pair. */
  lemma {:induction false} UnitCompares(body: string)
    requires HasUnit(body) && Meaning(body).Ok?
    ensures Compares(Unescape(body), Meaning(body).value, false) && !NoUnicode(body)
    decreases |body|, 0
  {
    var h, t := HeadOf(body), body[6..];
    if h.k == 12 {
      assert HeadOf(t) == Head(Unit(t), 6) && t[6..] == body[12..];
    }
    BodyCompares(t);
    ComparesUnicode(body, Meaning(t).value, h.point, NoUnicode(t));
  }

  /**
   `unescapify` reads a body as RFC 8259 does exactly when no escape of it is a `\u`; all eight other escapes are
   read as they should be.
   */
  lemma UnescapedExactly(body: string)
    requires Meaning(body).Ok?
    ensures Unescape(body).Ok? && CodePoints(Unescape(body).value) == Meaning(body) <==> NoUnicode(body)
  {
    BodyCompares(body);
  }

  // ----- what becomes of a `\u` escape, exactly

  /** The two digit strings of `hex_to_int`. */
  lemma DigitLookup(c: char, i: nat)
    requires i < 16
    ensures HexDigit(c) == i <==> c == "0123456789ABCDEF"[i] || c == "0123456789abcdef"[i]
    ensures -1 <= HexDigit(c) < 16
  {
  }

  /** Its digits are weighed from the last one down; that decides whether it is taken for a high surrogate. */
  lemma ReversedHigh(d: string)
    requires IsHex4(d)
    ensures HexToInt(d) / 1024 == 54 <==> HexDigit(d[3]) == 13 && 8 <= HexDigit(d[2]) <= 11
  {
    FourReversed(d);
  }

  lemma FourReversed(d: string)
    requires |d| == 4
    ensures HexToInt(d) == HexDigit(d[0]) + 16 * HexDigit(d[1]) + 256 * HexDigit(d[2]) + 4096 * HexDigit(d[3])
  {
    assert d[1..][1..] == d[2..] && d[2..][1..] == d[3..] && d[3..][1..] == "";
    assert HexToInt(d[3..]) == HexDigit(d[3]);
    assert HexToInt(d[2..]) == HexDigit(d[3]) * 16 + HexDigit(d[2]);
    assert HexToInt(d[1..]) == HexToInt(d[2..]) * 16 + HexDigit(d[1]);
  }

  lemma EscapeFirst(s: string, head: Result<string>)
    requires |s| >= 2 && s[0] == '\\' && head == EscapeMeaning(s)
    ensures Unescape(s) == if head.Ok? then Prepend(head.value, Unescape(s[2..])) else Throw
  {
  }

  lemma UnicodeHead(s: string, d: string)
    requires |s| >= 6 && s[0] == '\\' && s[1] == 'u' && s[2..6] == d && IsHex4(d)
    ensures EscapeMeaning(s)
         == if !(HexDigit(d[3]) == 13 && 8 <= HexDigit(d[2]) <= 11) then Ok("")
            else if |s| < 8 then Throw
            else Ok([(HexToInt(Four(s, 8)) % 256) as char])
  {
    assert Four(s, 2) == d;
    ReversedHigh(d);
  }

  lemma LowByte(s: string)
    requires |s| >= 12
    ensures HexToInt(Four(s, 8)) % 256 == (HexDigit(s[8]) + 16 * HexDigit(s[9])) % 256
  {
    FourReversed(s[8..12]);
    Modulo256(HexDigit(s[8]) + 16 * HexDigit(s[9]), HexDigit(s[10]), HexDigit(s[11]));
  }

  lemma Modulo256(low: int, x: int, y: int)
    ensures (low + 256 * x + 4096 * y) % 256 == low % 256
  {
  }

  lemma NothingFirst(r: Result<string>)
    ensures Prepend("", r) == r
  {
    assert r.Ok? ==> "" + r.value == r.value;
  }

  /** Read from the last digit on, these are a high surrogate. */
  predicate ReadsHigh(d: string)
    requires IsHex4(d)
  {
    HexDigit(d[3]) == 13 && 8 <= HexDigit(d[2]) <= 11
  }

  lemma UnicodeText(s: string, d: string, rest: string)
    requires s == "\\u" + (d + rest) && |d| == 4
    ensures |s| == 6 + |rest| && s[0] == '\\' && s[1] == 'u' && s[2..6] == d && s[2..] == d + rest
    ensures |rest| >= 6 ==> s[8] == rest[2] && s[9] == rest[3]
  {
  }

  lemma DigitsStay(s: string, d: string, rest: string, head: Result<string>)
    requires s == "\\u" + (d + rest) && IsHex4(d) && head == EscapeMeaning(s)
    ensures Unescape(s) == if head.Ok? then Prepend(head.value, Prepend(d, Unescape(rest))) else Throw
  {
    UnicodeText(s, d, rest);
    DigitsStraight(d);
    StraightUnescaped(d, rest);
    EscapeFirst(s, head);
  }

  lemma ByteHead(s: string, d: string, c: char)
    requires |s| >= 12 && s[0] == '\\' && s[1] == 'u' && s[2..6] == d && IsHex4(d) && ReadsHigh(d)
    requires c as int == (HexDigit(s[8]) + 16 * HexDigit(s[9])) % 256
    ensures EscapeMeaning(s) == Ok([c])
  {
    UnicodeHead(s, d);
    LowByte(s);
  }

  lemma UnicodeHeads(s: string, d: string, rest: string, c: char)
    requires s == "\\u" + (d + rest) && IsHex4(d)
    ensures !ReadsHigh(d) ==> EscapeMeaning(s) == Ok("")
    ensures ReadsHigh(d) && |rest| < 2 ==> EscapeMeaning(s) == Throw
    ensures ReadsHigh(d) && |rest| >= 6 && c as int == (HexDigit(rest[2]) + 16 * HexDigit(rest[3])) % 256 ==>
              EscapeMeaning(s) == Ok([c])
  {
    UnicodeText(s, d, rest);
    UnicodeHead(s, d);
    if ReadsHigh(d) && |rest| >= 6 && c as int == (HexDigit(rest[2]) + 16 * HexDigit(rest[3])) % 256 {
      ByteHead(s, d, c);
    }
  }

  /**
   The digits of a `\u` escape stay in the text. In front of them comes nothing, unless their reversal is a high
   surrogate: then the call throws if the text ends before the place of the digits of a second escape, and
   otherwise `c`, the low byte of what stands there, weighed likewise, comes first.
   */
  lemma UnicodeEscapeRead(s: string, d: string, rest: string, c: char)
    requires s == "\\u" + (d + rest) && IsHex4(d)
    ensures !ReadsHigh(d) ==> Unescape(s) == Prepend(d, Unescape(rest))
    ensures ReadsHigh(d) && |rest| < 2 ==> Unescape(s) == Throw
    ensures ReadsHigh(d) && |rest| >= 6 && c as int == (HexDigit(rest[2]) + 16 * HexDigit(rest[3])) % 256 ==>
              Unescape(s) == Prepend([c], Prepend(d, Unescape(rest)))
  {
    UnicodeHeads(s, d, rest, c);
    DigitsStay(s, d, rest, EscapeMeaning(s));
    NothingFirst(Prepend(d, Unescape(rest)));
  }

  // ----- writing: a string as the printer escapes it, read by a JSON reader

  /** The vertical tab, which has no escape in JSON, and the null byte, which is printed as it is. */
  predicate Unwritable(c: char) {
    c == '\U{0B}' || c == '\U{00}'
  }

  ghost predicate Writable(s: string) {
    forall c | c in s :: !Unwritable(c)
  }

  lemma LetterBack(c: char)
    requires EscapeLetter(c) != '\0'
    ensures LetterMeaning(EscapeLetter(c)) == (if c == '\U{0B}' then -1 else c as int) && EscapeLetter(c) != 'u'
  {
  }

  lemma LetterRead(x: char, rest: string)
    requires x != 'u'
    ensures Meaning(['\\', x] + rest)
         == if LetterMeaning(x) < 0 then Throw else PrependPoints([LetterMeaning(x)], Meaning(rest))
  {
    var t := ['\\', x] + rest;
    assert t[2..] == rest && t[1] == x;
  }

  lemma LetterWritten(c: char, rest: string)
    requires EscapeLetter(c) != '\0'
    ensures Meaning(EscapeChar(c) + rest) == if c == '\U{0B}' then Throw else PrependPoints([c as int], Meaning(rest))
  {
    LetterBack(c);
    LetterRead(EscapeLetter(c), rest);
  }

  lemma ControlWritten(c: char, rest: string)
    requires EscapeLetter(c) == '\0' && c as int < 32
    ensures Meaning(EscapeChar(c) + rest) == if c == '\U{00}' then Throw else PrependPoints([c as int], Meaning(rest))
  {
    if c != '\U{00}' {
      UnitBack(c as int);
      OneUnitMeaning("\\u" + Hex4(c as int), rest);
    }
  }

  /** Bytes that the printer leaves alone. */
  predicate Raw(a: string) {
    forall c | c in a :: EscapeLetter(c) == '\0' && c as int >= 32
  }

  lemma FirstBack(a: string, rest: string)
    requires a != ""
    ensures [a[0]] + (a[1..] + rest) == a + rest
  {
  }

  lemma {:induction false} RawEscaped(a: string, rest: string)
    requires Raw(a)
    ensures Escape(a + rest) == a + Escape(rest)
  {
    if a == "" {
      assert a + rest == rest && "" + Escape(rest) == Escape(rest);
    } else {
      assert a[0] in a && (a + rest)[1..] == a[1..] + rest;
      RawEscaped(a[1..], rest);
      FirstBack(a, Escape(rest));
    }
  }

  lemma CharacterWritten(a: string, rest: string)
    requires Utf8Width(a) == |a| > 0 && Raw(a)
    ensures Meaning(a + rest) == PrependPoints([Utf8Point(a)], Meaning(rest))
  {
    assert a[0] in a;
    WidthInFront(a, rest);
    assert (a + rest)[|a|..] == rest;
  }

  lemma CharacterIsRaw(s: string)
    requires Utf8Width(s) > 0 && EscapeLetter(s[0]) == '\0' && s[0] as int >= 32
    ensures Raw(s[..Utf8Width(s)])
  {
    var a := s[..Utf8Width(s)];
    assert forall i | 0 < i < |a| :: Tail(a[i]);
  }

  /** A JSON reader gets back the code points that were printed, unless it throws. */
  lemma {:induction false} WrittenExactly(s: string)
    requires CodePoints(s).Ok?
    ensures Meaning(Escape(s)) == if Writable(s) then CodePoints(s) else Throw
    decreases |s|
  {
    if s != "" {
      var w := Utf8Width(s);
      assert s == s[..w] + s[w..];
      WrittenExactly(s[w..]);
      WritableHead(s);
      if EscapeLetter(s[0]) != '\0' {
        LetterWritten(s[0], Escape(s[w..]));
      } else if s[0] as int < 32 {
        ControlWritten(s[0], Escape(s[w..]));
      } else {
        CharacterIsRaw(s);
        RawEscaped(s[..w], s[w..]);
        HeadWhole(s);
        CharacterWritten(s[..w], Escape(s[w..]));
      }
    }
  }

  lemma WritableHead(s: string)
    requires Utf8Width(s) > 0
    ensures Writable(s) <==> !Unwritable(s[0]) && Writable(s[Utf8Width(s)..])
  {
    var w := Utf8Width(s);
    assert s == s[..w] + s[w..] && forall i | 0 < i < w :: Tail(s[i]);
    assert s[0] in s;
    forall c | c in s ensures c == s[0] || c in s[w..] || !Unwritable(c) {
      var i :| 0 <= i < |s| && s[i] == c;
      assert i >= w ==> s[w..][i - w] == c;
    }
  }
}
