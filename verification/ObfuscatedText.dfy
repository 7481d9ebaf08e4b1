/** What `obfuscateMain` does to a whole text, and how it meets `minify`. */
module ObfuscatedText {
  import opened Outcomes
  import opened JsonPrinter
  import opened JsonParser
  import opened Minifier
  import opened Obfuscator

  // ----- a text as a JSON reader cuts it

  datatype Text = End(outside: string) | Lit(outside: string, body: string, rest: Text)

  /** The length of a literal's body: up to the first quote that no backslash takes along. */
  function BodyLength(s: string): (n: nat)
    ensures n <= |s|
    ensures n < |s| ==> s[n] == '\"'
    decreases |s|
  {
    if s == "" || s[0] == '\"' then 0
    else if s[0] == '\\' then if |s| == 1 then 1 else 2 + BodyLength(s[2..])
    else 1 + BodyLength(s[1..])
  }

  function Joined(outside: string, body: string, rest: string): string {
    outside + ("\"" + (body + ("\"" + rest)))
  }

  /** The first literal of a text, if there is one and it is closed. */
  datatype Cut = NoLiteral | Unclosed | Cut(outside: string, body: string, rest: string)

  function FirstCut(s: string): (c: Cut)
    ensures c.Cut? ==> |c.rest| < |s|
  {
    var i := FindQuote(s);
    if i == |s| then NoLiteral
    else
      var t := s[i + 1..];
      var n := BodyLength(t);
      if n == |t| then Unclosed else Cut(s[..i], t[..n], t[n + 1..])
  }

  /** Throws when a literal is not closed. */
  function Lex(s: string): Result<Text>
    decreases |s|
  {
    match FirstCut(s)
    case NoLiteral => Ok(End(s))
    case Unclosed => Throw
    case Cut(outside, body, rest) =>
      match Lex(rest)
      case Throw => Throw
      case Ok(t) => Ok(Lit(outside, body, t))
  }

  function Unlex(t: Text): string {
    match t
    case End(outside) => outside
    case Lit(outside, body, rest) => Joined(outside, body, Unlex(rest))
  }

  function EscapedText(t: Text): Text {
    match t
    case End(_) => t
    case Lit(outside, body, rest) => Lit(outside, UnicodeEscaped(body), EscapedText(rest))
  }

  function NoSpaces(s: string): string {
    if s == "" then "" else (if IsWhite(s[0]) then "" else [s[0]]) + NoSpaces(s[1..])
  }

  function Squeezed(t: Text): Text {
    match t
    case End(outside) => End(NoSpaces(outside))
    case Lit(outside, body, rest) => Lit(NoSpaces(outside), body, Squeezed(rest))
  }

  // ----- bodies

  /** No quote but escaped ones, and no backslash left alone at the end. */
  predicate IsBody(s: string)
    decreases |s|
  {
    if s == "" then true
    else if s[0] == '\\' then |s| >= 2 && IsBody(s[2..])
    else s[0] != '\"' && IsBody(s[1..])
  }

  predicate QuoteFree(s: string) {
    '\"' !in s
  }

  ghost predicate WellFormed(t: Text) {
    QuoteFree(t.outside) && (t.Lit? ==> IsBody(t.body) && WellFormed(t.rest))
  }

  /** No literal holds an escaped quote. */
  predicate QuoteFreeBodies(t: Text) {
    t.Lit? ==> QuoteFree(t.body) && QuoteFreeBodies(t.rest)
  }

  lemma {:induction false} BodyKept(s: string)
    requires IsBody(s)
    ensures StaysIn(s, Inside)
    decreases |s|
  {
    if s != "" {
      var k := if s[0] == '\\' then 2 else 1;
      BodyKept(s[k..]);
      if k == 2 { PairStaysInside(s[1]); } else { PlainStaysInside([s[0]]); }
      assert s[..k] == if k == 2 then ['\\', s[1]] else [s[0]];
      assert s == s[..k] + s[k..];
      ModeConcat(s[..k], s[k..], Inside);
      KeptConcat(s[..k], s[k..], Inside);
    }
  }

  lemma {:induction false} BodyOf(s: string)
    ensures BodyLength(s) < |s| ==> IsBody(s[..BodyLength(s)])
    ensures BodyLength(s) == |s| ==> ModeAfter(s, Inside) != Outside
    decreases |s|
  {
    var n := BodyLength(s);
    if s != "" && s[0] != '\"' {
      if s[0] != '\\' {
        BodyOf(s[1..]);
        assert s[..n][1..] == s[1..][..n - 1];
      } else if |s| == 1 {
        assert s[1..] == "";
      } else {
        BodyOf(s[2..]);
        if n < |s| {
          assert s[..n][2..] == s[2..][..n - 2];
        }
        assert s[1..][1..] == s[2..];
      }
    }
  }

  lemma {:induction false} BodyLengthOf(body: string, rest: string)
    requires IsBody(body)
    ensures BodyLength(body + ("\"" + rest)) == |body|
    decreases |body|
  {
    var s := body + ("\"" + rest);
    if body == "" {
      assert s == "\"" + rest;
    } else {
      var k := if body[0] == '\\' then 2 else 1;
      assert s[k..] == body[k..] + ("\"" + rest);
      BodyLengthOf(body[k..], rest);
    }
  }

  lemma {:induction false} BodyConcat(a: string, b: string)
    requires IsBody(a) && IsBody(b)
    ensures IsBody(a + b)
    decreases |a|
  {
    if a == "" {
      assert a + b == b;
    } else {
      var k := if a[0] == '\\' then 2 else 1;
      assert (a + b)[k..] == a[k..] + b;
      BodyConcat(a[k..], b);
    }
  }

  lemma {:induction false} PlainIsBody(s: string)
    requires forall i | 0 <= i < |s| :: s[i] != '\"' && s[i] != '\\'
    ensures IsBody(s)
  {
    if s != "" {
      PlainIsBody(s[1..]);
    }
  }

  /** A `\u` and hexadecimal digits. */
  ghost predicate Digits(s: string) {
    IsBody(s) && QuoteFree(s) && forall i | 0 <= i < |s| :: s[i] as int <= 0x7F
  }

  lemma DigitsConcat(a: string, b: string)
    requires Digits(a) && Digits(b)
    ensures Digits(a + b)
  {
    BodyConcat(a, b);
  }

  lemma Hex4Digits(n: nat)
    requires n < 0x10000
    ensures Digits(Hex4(n))
  {
    assert forall i | 0 <= i < 16 :: HEX[i] != '\"' && HEX[i] != '\\' && HEX[i] as int <= 0x7F;
    PlainIsBody(Hex4(n));
  }

  lemma FixedDigits()
    ensures Digits("\\u") && Digits("ffff")
  {
    assert "\\u"[2..] == "";
    PlainIsBody("ffff");
  }

  lemma UnitDigits(cc: int)
    requires -128 <= cc < 0x200000
    ensures Digits(EscapeUnit(cc))
  {
    FixedDigits();
    if cc > 65535 {
      Hex4Digits(55296 + cc / 1024);
      Hex4Digits(56320 + cc % 1024);
      DigitsConcat("\\u", Hex4(55296 + cc / 1024));
      DigitsConcat("\\u", Hex4(56320 + cc % 1024));
      DigitsConcat("\\u" + Hex4(55296 + cc / 1024), "\\u" + Hex4(56320 + cc % 1024));
    } else if cc >= 0 {
      Hex4Digits(cc);
      DigitsConcat("\\u", Hex4(cc));
    } else {
      Hex4Digits(65536 + cc);
      DigitsConcat("\\u", "ffff");
      DigitsConcat("\\u" + "ffff", Hex4(65536 + cc));
    }
  }

  /** Whatever the bytes, the escaped text is pure ASCII without quotes, and a whole body. */
  lemma {:induction false} EscapedIsDigits(s: string)
    ensures Digits(UnicodeEscaped(s))
  {
    if s != "" {
      EscapedIsDigits(s[Taken(s)..]);
      UnitDigits(DecodeUtf8(s[..Taken(s)]));
      DigitsConcat(EscapeUnit(DecodeUtf8(s[..Taken(s)])), UnicodeEscaped(s[Taken(s)..]));
    }
  }

  // ----- lexing

  lemma {:induction false} FindQuoteAt(a: string, b: string)
    requires QuoteFree(a)
    ensures FindQuote(a + ("\"" + b)) == |a|
  {
    if a == "" {
      assert a + ("\"" + b) == "\"" + b;
    } else {
      assert (a + ("\"" + b))[1..] == a[1..] + ("\"" + b);
      FindQuoteAt(a[1..], b);
    }
  }

  lemma {:induction false} NoQuoteFound(a: string)
    requires QuoteFree(a)
    ensures FindQuote(a) == |a|
  {
    if a != "" {
      NoQuoteFound(a[1..]);
    }
  }

  lemma {:induction false} CutJoined(outside: string, body: string, rest: string)
    requires QuoteFree(outside) && IsBody(body)
    ensures FirstCut(Joined(outside, body, rest)) == Cut(outside, body, rest)
  {
    var t := body + ("\"" + rest);
    FindQuoteAt(outside, t);
    assert Joined(outside, body, rest)[|outside| + 1..] == t;
    BodyLengthOf(body, rest);
    assert t[..|body|] == body && t[|body| + 1..] == rest;
  }

  lemma JoinedCut(s: string)
    ensures FirstCut(s).NoLiteral? ==> QuoteFree(s)
    ensures FirstCut(s).Unclosed? ==> ModeAfter(s, Outside) != Outside
    ensures var c := FirstCut(s);
            c.Cut? ==> QuoteFree(c.outside) && IsBody(c.body) && s == Joined(c.outside, c.body, c.rest)
  {
    var i := FindQuote(s);
    match FirstCut(s) {
      case NoLiteral =>
        assert s[..i] == s;
      case Unclosed =>
        UnclosedThrows(s, i);
      case Cut(_, _, _) =>
        BodyOf(s[i + 1..]);
        JoinedBack(s, i, BodyLength(s[i + 1..]));
    }
  }

  lemma JoinedBack(s: string, i: nat, n: nat)
    requires i < |s| && s[i] == '\"' && n < |s[i + 1..]| && s[i + 1..][n] == '\"'
    ensures s == Joined(s[..i], s[i + 1..][..n], s[i + 1..][n + 1..])
  {
    var t := s[i + 1..];
    assert t == t[..n] + ("\"" + t[n + 1..]);
    assert s == s[..i] + ("\"" + t);
  }

  lemma UnclosedThrows(s: string, i: nat)
    requires i < |s| && QuoteFree(s[..i]) && s[i] == '\"' && BodyLength(s[i + 1..]) == |s[i + 1..]|
    ensures ModeAfter(s, Outside) != Outside
  {
    OutsideKept(s[..i]);
    assert s == s[..i] + s[i..] && s[i..][1..] == s[i + 1..];
    ModeConcat(s[..i], s[i..], Outside);
    BodyOf(s[i + 1..]);
  }

  /** Lexing undoes joining. */
  lemma {:induction false} LexUnlex(t: Text)
    requires WellFormed(t)
    ensures Lex(Unlex(t)) == Ok(t)
  {
    match t {
      case End(outside) =>
        NoQuoteFound(outside);
      case Lit(outside, body, rest) =>
        LexUnlex(rest);
        CutJoined(outside, body, Unlex(rest));
    }
  }

  /** Joining undoes lexing. */
  lemma {:induction false} UnlexLex(s: string)
    requires Lex(s).Ok?
    ensures Unlex(Lex(s).value) == s && WellFormed(Lex(s).value)
    decreases |s|
  {
    JoinedCut(s);
    if FirstCut(s).Cut? {
      UnlexLex(FirstCut(s).rest);
    }
  }

  // ----- minifying a text is squeezing what is outside its literals

  lemma {:induction false} OutsideKept(s: string)
    requires QuoteFree(s)
    ensures ModeAfter(s, Outside) == Outside && Kept(s, Outside) == NoSpaces(s)
  {
    if s != "" {
      OutsideKept(s[1..]);
    }
  }

  lemma LiteralKept(body: string)
    requires IsBody(body)
    ensures Shrinks("\"" + (body + "\""), "\"" + (body + "\""))
  {
    BodyKept(body);
    assert "\""[1..] == "";
    ModeConcat("\"", body + "\"", Outside);
    KeptConcat("\"", body + "\"", Outside);
    ModeConcat(body, "\"", Inside);
    KeptConcat(body, "\"", Inside);
  }

  lemma JoinedParts(o: string, b: string, r: string)
    ensures Joined(o, b, r) == o + (("\"" + (b + "\"")) + r)
  {
  }

  lemma JoinedShrinks(outside: string, body: string, rest: string, rest': string)
    requires QuoteFree(outside) && IsBody(body)
    ensures ModeAfter(Joined(outside, body, rest), Outside) == ModeAfter(rest, Outside)
    ensures Kept(rest, Outside) == rest' ==>
              Kept(Joined(outside, body, rest), Outside) == Joined(NoSpaces(outside), body, rest')
  {
    var lit := "\"" + (body + "\"");
    JoinedParts(outside, body, rest);
    JoinedParts(NoSpaces(outside), body, rest');
    OutsideKept(outside);
    LiteralKept(body);
    ModeConcat(outside, lit + rest, Outside);
    KeptConcat(outside, lit + rest, Outside);
    ModeConcat(lit, rest, Outside);
    KeptConcat(lit, rest, Outside);
  }

  /** `minify` throws exactly when a literal is not closed; else it squeezes the texts between the literals. */
  lemma {:induction false} MinifiedIsSqueezed(s: string)
    ensures Minified(s) == match Lex(s) case Throw => Throw case Ok(t) => Ok(Unlex(Squeezed(t)))
    decreases |s|
  {
    JoinedCut(s);
    match FirstCut(s) {
      case NoLiteral =>
        OutsideKept(s);
      case Unclosed =>
      case Cut(outside, body, rest) =>
        MinifiedIsSqueezed(rest);
        JoinedShrinks(outside, body, rest, Kept(rest, Outside));
    }
  }

  // ----- obfuscating a text is escaping its literals

  lemma ObfuscatedJoined(outside: string, body: string, rest: string)
    requires QuoteFree(outside) && QuoteFree(body)
    ensures Obfuscated(Joined(outside, body, rest)) == Joined(outside, UnicodeEscaped(body), Obfuscated(rest))
  {
    var t := body + ("\"" + rest);
    FindQuoteAt(outside, t);
    assert Joined(outside, body, rest)[|outside| + 1..] == t;
    FindQuoteAt(body, rest);
    assert t[..|body|] == body && t[|body| + 1..] == rest;
  }

  /** When no literal holds an escaped quote, the code's quote matching finds the literals. */
  lemma {:induction false} ObfuscatedIsEscaped(s: string)
    requires Lex(s).Ok? && QuoteFreeBodies(Lex(s).value)
    ensures Obfuscated(s) == Unlex(EscapedText(Lex(s).value))
    ensures WellFormed(EscapedText(Lex(s).value)) && QuoteFreeBodies(EscapedText(Lex(s).value))
    decreases |s|
  {
    JoinedCut(s);
    match FirstCut(s) {
      case NoLiteral =>
        NoQuoteFound(s);
      case Cut(outside, body, rest) =>
        ObfuscatedIsEscaped(rest);
        ObfuscatedJoined(outside, body, rest);
        EscapedIsDigits(body);
    }
  }

  lemma EscapedHead(s: string)
    requires Utf8Width(s) > 0
    ensures UnicodeEscaped(s) == EscapeUnit(Utf8Point(s)) + UnicodeEscaped(s[Utf8Width(s)..])
  {
    PointIsScalar(s);
  }

  /** A prefix that keeps the first character whole. */
  lemma HeadOfPrefix(s: string, j: nat)
    requires Utf8Width(s) > 0 && Utf8Width(s) <= j <= |s|
    ensures var w := Utf8Width(s);
            UnicodeEscaped(s[..j]) == EscapeUnit(Utf8Point(s)) + UnicodeEscaped(s[w..][..j - w])
  {
    assert Utf8Width(s[..j]) == Utf8Width(s) && Utf8Point(s[..j]) == Utf8Point(s);
    EscapedHead(s[..j]);
    SliceAgain(s, Utf8Width(s), j);
  }

  /** Escaping goes on unchanged before an ASCII byte of valid UTF-8. */
  lemma {:induction false} EscapedSplit(s: string, j: nat)
    requires CodePoints(s).Ok? && j < |s| && s[j] as int <= 0x7F
    ensures UnicodeEscaped(s) == UnicodeEscaped(s[..j]) + UnicodeEscaped(s[j..])
    decreases |s|
  {
    if j == 0 {
      assert s[0..] == s && s[..0] == "";
    } else {
      var w := Utf8Width(s);
      AsciiIsBoundary(s, j);
      EscapedSplit(s[w..], j - w);
      SliceAgain(s, w, j);
      Regroup3(EscapeUnit(Utf8Point(s)), UnicodeEscaped(s[w..][..j - w]), UnicodeEscaped(s[j..]));
      HeadOfPrefix(s, j);
      EscapedHead(s);
    }
  }

  lemma SliceAgain(s: string, w: nat, j: nat)
    requires w <= j <= |s|
    ensures s[w..][..j - w] == s[..j][w..] && s[w..][j - w..] == s[j..]
  {
  }

  lemma AsciiIsBoundary(s: string, j: nat)
    requires Utf8Width(s) > 0 && 0 < j < |s| && s[j] as int <= 0x7F
    ensures j >= Utf8Width(s)
  {
  }

  lemma Regroup3(a: string, b: string, c: string)
    ensures a + (b + c) == (a + b) + c
  {
  }

  lemma CutAt(body: string, rest: string, j: nat)
    requires j < |body| && body[j] == '\"'
    ensures body + ("\"" + rest) == body[..j] + ("\"" + (body[j + 1..] + ("\"" + rest)))
  {
    assert body == body[..j] + (['\"'] + body[j + 1..]);
  }

  /** A literal with an escaped quote is cut short there. */
  lemma CutShort(outside: string, body: string, rest: string) returns (j: nat, more: string)
    requires QuoteFree(outside) && !QuoteFree(body)
    ensures j < |body| && body[j] == '\"' && QuoteFree(body[..j])
    ensures Obfuscated(Joined(outside, body, rest)) == Joined(outside, UnicodeEscaped(body[..j]), more)
  {
    j := FindQuote(body);
    assert body[..|body|] == body;
    var after := body[j + 1..] + ("\"" + rest);
    more := Obfuscated(after);
    CutAt(body, rest, j);
    ObfuscatedJoined(outside, body[..j], after);
  }

  /** The result has a quote where escaping would go on. */
  lemma CutShortDiffers(outside: string, body: string, j: nat, more: string, tail: string)
    requires CodePoints(body).Ok? && j < |body| && body[j] == '\"'
    ensures Joined(outside, UnicodeEscaped(body[..j]), more) != Joined(outside, UnicodeEscaped(body), tail)
  {
    var p, k := UnicodeEscaped(body[..j]), |outside| + 1 + |UnicodeEscaped(body[..j])|;
    EscapedSplit(body, j);
    EscapedIsDigits(body);
    EscapedNotEmpty(body[j..]);
    assert Joined(outside, p, more)[k] == '\"';
    assert Joined(outside, UnicodeEscaped(body), tail)[k] == UnicodeEscaped(body)[|p|];
  }

  lemma EscapedNotEmpty(s: string)
    requires s != ""
    ensures UnicodeEscaped(s) != ""
  {
  }

  /** The code's quote matching finds the literals of a readable text if and only if none holds an escaped quote. */
  lemma {:induction false} QuoteMatchingExact(s: string)
    requires Lex(s).Ok? && Meaningful(Lex(s).value)
    ensures Obfuscated(s) == Unlex(EscapedText(Lex(s).value)) <==> QuoteFreeBodies(Lex(s).value)
    decreases |s|
  {
    JoinedCut(s);
    match FirstCut(s) {
      case NoLiteral =>
        NoQuoteFound(s);
      case Cut(outside, body, rest) =>
        var tail := Unlex(EscapedText(Lex(rest).value));
        QuoteMatchingExact(rest);
        if QuoteFree(body) {
          ObfuscatedJoined(outside, body, rest);
          JoinedInjective(outside, UnicodeEscaped(body), Obfuscated(rest), tail);
        } else {
          RawIsLonger(body);
          var j, more := CutShort(outside, body, rest);
          CutShortDiffers(outside, body, j, more, tail);
        }
    }
  }

  lemma JoinedInjective(outside: string, body: string, a: string, b: string)
    ensures Joined(outside, body, a) == Joined(outside, body, b) <==> a == b
  {
    var k := |outside| + |body| + 2;
    assert Joined(outside, body, a)[k..] == a && Joined(outside, body, b)[k..] == b;
  }

  ghost predicate SameOutside(t: Text, u: Text) {
    && t.outside == u.outside && (t.Lit? <==> u.Lit?)
    && (t.Lit? ==> SameOutside(t.rest, u.rest))
  }

  /** Every literal means something to a JSON reader. */
  ghost predicate Meaningful(t: Text) {
    t.Lit? ==> Meaning(t.body).Ok? && Meaningful(t.rest)
  }

  /** Every literal is ASCII and means what the literal in its place means. */
  ghost predicate AsciiSameMeaning(t: Text, u: Text)
    requires SameOutside(t, u)
  {
    t.Lit? ==>
      && (forall i | 0 <= i < |u.body| :: u.body[i] as int <= 0x7F)
      && Meaning(u.body) == Meaning(t.body)
      && AsciiSameMeaning(t.rest, u.rest)
  }

  /** No backslash and no four-byte sequence in any literal. */
  predicate PlainBodies(t: Text) {
    t.Lit? ==> NoBackslash(t.body) && NoFourByteLead(t.body) && PlainBodies(t.rest)
  }

  lemma {:induction false} EscapedTextMeaning(t: Text)
    requires Meaningful(t)
    ensures SameOutside(t, EscapedText(t))
    ensures AsciiSameMeaning(t, EscapedText(t)) <==> PlainBodies(t)
  {
    if t.Lit? {
      EscapedTextMeaning(t.rest);
      EscapedIsDigits(t.body);
      MeaningKept(t.body);
    }
  }

  /** When no literal holds an escaped quote, the text outside the literals is unchanged in any case. */
  lemma QuoteFreeKeepsMeaning(s: string)
    requires Lex(s).Ok? && QuoteFreeBodies(Lex(s).value) && Meaningful(Lex(s).value)
    ensures Lex(Obfuscated(s)).Ok?
    ensures SameOutside(Lex(s).value, Lex(Obfuscated(s)).value)
    ensures AsciiSameMeaning(Lex(s).value, Lex(Obfuscated(s)).value) <==> PlainBodies(Lex(s).value)
  {
    ObfuscatedIsEscaped(s);
    LexUnlex(EscapedText(Lex(s).value));
    EscapedTextMeaning(Lex(s).value);
  }

  /** The text `s` is the text `t` with its literals in ASCII, and means the same. */
  ghost predicate AsciiOf(s: string, t: Text) {
    Lex(s).Ok? && SameOutside(t, Lex(s).value) && AsciiSameMeaning(t, Lex(s).value)
  }

  /** One literal and what follows it. */
  lemma AsciiOfJoined(outside: string, e: string, rest: string, body: string, t: Text)
    requires QuoteFree(outside) && Digits(e)
    ensures AsciiOf(Joined(outside, e, rest), Lit(outside, body, t)) <==>
            Meaning(e) == Meaning(body) && AsciiOf(rest, t)
  {
    CutJoined(outside, e, rest);
  }

  lemma {:induction false} QuoteNeedsBackslash(body: string)
    requires IsBody(body) && NoBackslash(body)
    ensures QuoteFree(body)
  {
    if body != "" {
      assert body[0] in body;
      QuoteNeedsBackslash(body[1..]);
    }
  }

  /** A first literal with an escaped quote loses its meaning. */
  lemma CutShortLoses(outside: string, body: string, rest: string, t: Text)
    requires QuoteFree(outside) && !QuoteFree(body) && Meaning(body).Ok?
    ensures !AsciiOf(Obfuscated(Joined(outside, body, rest)), Lit(outside, body, t))
  {
    var j, more := CutShort(outside, body, rest);
    EscapedIsDigits(body[..j]);
    CutLosesMeaning(body, j);
    AsciiOfJoined(outside, UnicodeEscaped(body[..j]), more, body, t);
  }

  /** Any other first literal keeps it or not, as its escapes do. */
  lemma WholeLiteral(outside: string, body: string, rest: string, t: Text)
    requires QuoteFree(outside) && QuoteFree(body) && Meaning(body).Ok?
    ensures AsciiOf(Obfuscated(Joined(outside, body, rest)), Lit(outside, body, t)) <==>
            NoBackslash(body) && NoFourByteLead(body) && AsciiOf(Obfuscated(rest), t)
  {
    ObfuscatedJoined(outside, body, rest);
    EscapedIsDigits(body);
    MeaningKept(body);
    AsciiOfJoined(outside, UnicodeEscaped(body), Obfuscated(rest), body, t);
  }

  /**
   Obfuscating a text whose literals a JSON reader understands leaves everything outside them, makes them
   ASCII and keeps what each means exactly when none has a backslash or a four-byte sequence.
   */
  lemma {:induction false} ObfuscationKeepsMeaning(s: string)
    requires Lex(s).Ok? && Meaningful(Lex(s).value)
    ensures AsciiOf(Obfuscated(s), Lex(s).value) <==> PlainBodies(Lex(s).value)
    decreases |s|
  {
    JoinedCut(s);
    match FirstCut(s) {
      case NoLiteral =>
        NoQuoteFound(s);
      case Cut(outside, body, rest) =>
        ObfuscationKeepsMeaning(rest);
        if QuoteFree(body) {
          WholeLiteral(outside, body, rest, Lex(rest).value);
        } else {
          if NoBackslash(body) {
            QuoteNeedsBackslash(body);
          }
          CutShortLoses(outside, body, rest, Lex(rest).value);
        }
    }
  }

  // ----- the two passes commute

  lemma {:induction false} SqueezedEscaped(t: Text)
    requires WellFormed(t)
    ensures Squeezed(EscapedText(t)) == EscapedText(Squeezed(t))
    ensures WellFormed(Squeezed(t)) && (QuoteFreeBodies(t) ==> QuoteFreeBodies(Squeezed(t)))
  {
    NoSpacesQuoteFree(t.outside);
    if t.Lit? {
      SqueezedEscaped(t.rest);
    }
  }

  lemma {:induction false} NoSpacesQuoteFree(s: string)
    requires QuoteFree(s)
    ensures QuoteFree(NoSpaces(s))
  {
    if s != "" {
      NoSpacesQuoteFree(s[1..]);
    }
  }

  /** Obfuscating then minifying is minifying then obfuscating. */
  lemma Commute(s: string)
    requires Lex(s).Ok? && QuoteFreeBodies(Lex(s).value)
    ensures Minified(s).Ok?
    ensures Minified(Obfuscated(s)) == Ok(Obfuscated(Minified(s).value))
  {
    var t := Lex(s).value;
    UnlexLex(s);
    ObfuscatedIsEscaped(s);
    LexUnlex(EscapedText(t));
    MinifiedIsSqueezed(Obfuscated(s));
    MinifiedIsSqueezed(s);
    SqueezedEscaped(t);
    LexUnlex(Squeezed(t));
    ObfuscatedIsEscaped(Unlex(Squeezed(t)));
  }

  lemma EscapedQuoteKept()
    ensures Minified("\"\\\" \"") == Ok("\"\\\" \"")
  {
    var body := "\\\" ";
    assert body[2..] == " " && " "[1..] == "";
    assert IsBody(body);
    LiteralKept(body);
    assert "\"\\\" \"" == "\"" + (body + "\"");
  }

  lemma OpenTailThrows(o: string)
    requires Shrinks(o, o)
    ensures Minified(o + " \"") == Throw
  {
    ModeConcat(o, " \"", Outside);
    assert " \""[1..] == "\"" && "\""[1..] == "";
  }

  /** A quote behind a backslash is taken for the end of the literal, and then what was minified no longer is. */
  lemma EscapedQuoteBreaks()
    ensures var s := "\"\\\" \"";
            Minified(s) == Ok(s) && Minified(Obfuscated(s)) == Throw
  {
    EscapedQuoteKept();
    UnescapedQuote();
    EscapedIsDigits("\\");
    LiteralThenQuote("\"\\\" \"", UnicodeEscaped("\\"));
  }

  lemma LiteralThenQuote(s: string, e: string)
    requires IsBody(e) && Obfuscated(s) == "\"" + (e + ("\"" + " \""))
    ensures Minified(Obfuscated(s)) == Throw
  {
    var o := "\"" + (e + "\"");
    LiteralKept(e);
    OpenTailThrows(o);
    assert "\"" + (e + ("\"" + " \"")) == o + " \"";
  }

  lemma LoneQuote()
    ensures Obfuscated(" \"") == " \""
  {
    var s := " \"";
    assert s[1..] == "\"" && FindQuote(s[1..]) == 0 && s[2..] == "";
    assert FindQuote(s) == 1 && FindQuote("") == 0;
  }

  lemma UnescapedQuote()
    ensures Obfuscated("\"\\\" \"") == "\"" + (UnicodeEscaped("\\") + ("\"" + " \""))
  {
    assert "\"\\\" \"" == Joined("", "\\", " \"");
    LoneQuote();
    ObfuscatedJoined("", "\\", " \"");
  }
}
