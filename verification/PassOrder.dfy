/** When obfuscating and minifying can change places, exactly. */
module PassOrder {
  import opened Outcomes
  import opened Words
  import opened JsonParser
  import opened Minifier
  import opened Obfuscator
  import opened ObfuscatedText

  // ----- what the quote matching takes for a literal

  function PairCut(s: string): (c: Cut)
    ensures c.Cut? ==> |c.rest| < |s|
  {
    var i := FindQuote(s);
    if i == |s| then NoLiteral
    else
      var t := s[i + 1..];
      var j := FindQuote(t);
      if j == |t| then Unclosed else Cut(s[..i], t[..j], t[j + 1..])
  }

  lemma PairJoined(s: string)
    ensures PairCut(s).NoLiteral? ==> QuoteFree(s)
    ensures !PairCut(s).Cut? ==> Obfuscated(s) == s
    ensures var c := PairCut(s);
            c.Cut? ==> QuoteFree(c.outside) && QuoteFree(c.body) && s == Joined(c.outside, c.body, c.rest)
  {
    var i := FindQuote(s);
    match PairCut(s) {
      case NoLiteral =>
        assert s[..i] == s;
      case Unclosed =>
      case Cut(_, _, _) =>
        JoinedBack(s, i, FindQuote(s[i + 1..]));
    }
  }

  /** The last quote has no partner. */
  predicate Unpaired(s: string)
    decreases |s|
  {
    match PairCut(s)
    case NoLiteral => false
    case Unclosed => true
    case Cut(_, _, rest) => Unpaired(rest)
  }

  /** What lies between a quote and its partner is valid UTF-8. */
  predicate ReadablePairs(s: string)
    decreases |s|
  {
    match PairCut(s)
    case Cut(_, body, rest) => CodePoints(body).Ok? && ReadablePairs(rest)
    case _ => true
  }

  /**
   White space is inside a literal, for the minifier in mode `m`, exactly where the obfuscator, having seen an
   odd number of quotes or not, takes it for a part of one.
   */
  predicate SpacesAgree(s: string, m: Mode, odd: bool) {
    s != "" ==>
      && (IsSpace(s[0]) ==> ((m == Outside) <==> !odd))
      && SpacesAgree(s[1..], Step(m, s[0]), odd != (s[0] == '\"'))
  }

  lemma {:induction false} AgreeConcat(a: string, b: string, m: Mode, odd: bool)
    requires QuoteFree(a)
    ensures SpacesAgree(a + b, m, odd) <==> SpacesAgree(a, m, odd) && SpacesAgree(b, ModeAfter(a, m), odd)
  {
    if a == "" {
      assert a + b == b;
    } else {
      assert a[0] in a && (a + b)[1..] == a[1..] + b;
      AgreeConcat(a[1..], b, Step(m, a[0]), odd);
    }
  }

  lemma QuoteThen(b: string, m: Mode, odd: bool)
    ensures SpacesAgree("\"" + b, m, odd) <==> SpacesAgree(b, Step(m, '\"'), !odd)
    ensures Kept("\"" + b, m) == "\"" + Kept(b, Step(m, '\"'))
    ensures ModeAfter("\"" + b, m) == ModeAfter(b, Step(m, '\"'))
  {
    assert ("\"" + b)[1..] == b;
  }

  /** Both passes over a pair and what is around it. */
  lemma JoinedPasses(o: string, b: string, r: string, m: Mode)
    requires QuoteFree(o) && QuoteFree(b)
    ensures var m1 := Step(ModeAfter(o, m), '\"');
            var m2 := Step(ModeAfter(b, m1), '\"');
            && (SpacesAgree(Joined(o, b, r), m, false) <==>
                  SpacesAgree(o, m, false) && SpacesAgree(b, m1, true) && SpacesAgree(r, m2, false))
            && Kept(Joined(o, b, r), m) == Joined(Kept(o, m), Kept(b, m1), Kept(r, m2))
  {
    var m0 := ModeAfter(o, m);
    var m1 := Step(m0, '\"');
    var tail := "\"" + r;
    AgreeConcat(o, "\"" + (b + tail), m, false);
    KeptConcat(o, "\"" + (b + tail), m);
    QuoteThen(b + tail, m0, false);
    AgreeConcat(b, tail, m1, true);
    KeptConcat(b, tail, m1);
    QuoteThen(r, ModeAfter(b, m1), true);
  }

  lemma {:induction false} QuoteFreeKept(s: string, m: Mode)
    requires QuoteFree(s)
    ensures QuoteFree(Kept(s, m))
  {
    if s != "" {
      assert s[0] in s;
      QuoteFreeKept(s[1..], Step(m, s[0]));
    }
  }

  // ----- between the pairs

  /** Where the passes disagree, the minifier keeps white space that it would drop between the pairs. */
  lemma {:induction false} GapAgrees(g: string, m: Mode)
    requires QuoteFree(g)
    ensures |NoSpaces(g)| <= |Kept(g, m)|
    ensures NoSpaces(g) == Kept(g, m) <==> SpacesAgree(g, m, false)
    ensures !SpacesAgree(g, m, false) ==> |NoSpaces(g)| < |Kept(g, m)|
  {
    if g != "" {
      assert g[0] in g;
      GapAgrees(g[1..], Step(m, g[0]));
    }
  }

  // ----- inside the pairs

  lemma {:induction false} BodyKeptWhole(b: string, m: Mode)
    requires QuoteFree(b)
    ensures Kept(b, m) == b <==> SpacesAgree(b, m, true)
    ensures |Kept(b, m)| <= |b|
  {
    if b != "" {
      assert b[0] in b && b == [b[0]] + b[1..];
      BodyKeptWhole(b[1..], Step(m, b[0]));
      assert Kept(b, m) != b ==> !SpacesAgree(b, m, true);
    }
  }

  lemma {:induction false} NoSpaceKept(u: string, m: Mode)
    requires forall c | c in u :: !IsSpace(c)
    ensures Kept(u, m) == u
  {
    if u != "" {
      assert u[0] in u;
      NoSpaceKept(u[1..], Step(m, u[0]));
    }
  }

  /** The first character of valid UTF-8 is dropped, being white space, or kept whole. */
  lemma HeadKept(b: string, m: Mode)
    requires Utf8Width(b) > 0
    ensures var w := Utf8Width(b);
            var rest := Kept(b[w..], ModeAfter(b[..w], m));
            Kept(b, m) == rest || Kept(b, m) == b[..w] + rest
  {
    var w := Utf8Width(b);
    var u := b[..w];
    assert b == u + b[w..];
    KeptConcat(u, b[w..], m);
    if w > 1 {
      assert forall i | 0 <= i < w :: u[i] as int >= 0x80;
      NoSpaceKept(u, m);
    } else {
      assert u[1..] == "" && u == [u[0]];
      assert Kept(u, m) == "" || Kept(u, m) == u;
      assert "" + Kept(b[w..], ModeAfter(u, m)) == Kept(b[w..], ModeAfter(u, m));
    }
  }

  lemma HeadThen(u: string, z: string)
    requires Utf8Width(u) == |u| > 0
    ensures UnicodeEscaped(u + z) == EscapeUnit(Utf8Point(u)) + UnicodeEscaped(z)
  {
    assert Utf8Width(u + z) == |u| && Utf8Point(u + z) == Utf8Point(u);
    EscapedHead(u + z);
    assert (u + z)[|u|..] == z;
  }

  lemma HeadByItself(b: string)
    requires Utf8Width(b) > 0
    ensures Utf8Width(b[..Utf8Width(b)]) == Utf8Width(b) && Utf8Point(b[..Utf8Width(b)]) == Utf8Point(b)
  {
  }

  /** A character `u` dropped or kept, and what is kept of the text after it. */
  lemma PieceShrinks(u: string, z: string, rest: string, kept: string)
    requires Utf8Width(u) == |u| > 0 && (kept == rest || kept == u + rest)
    requires |UnicodeEscaped(rest)| <= |UnicodeEscaped(z)|
    requires rest != z ==> |UnicodeEscaped(rest)| < |UnicodeEscaped(z)|
    ensures |UnicodeEscaped(kept)| <= |UnicodeEscaped(u + z)|
    ensures kept != u + z ==> |UnicodeEscaped(kept)| < |UnicodeEscaped(u + z)|
  {
    HeadThen(u, z);
    HeadThen(u, rest);
    assert |EscapeUnit(Utf8Point(u))| > 0;
  }

  /** Dropping white space makes the escapes shorter. */
  lemma {:induction false} EscapesShrink(b: string, m: Mode)
    requires CodePoints(b).Ok?
    ensures |UnicodeEscaped(Kept(b, m))| <= |UnicodeEscaped(b)|
    ensures Kept(b, m) != b ==> |UnicodeEscaped(Kept(b, m))| < |UnicodeEscaped(b)|
    decreases |b|
  {
    if b != "" {
      var u, z := HeadOfText(b);
      EscapesShrink(z, ModeAfter(u, m));
      HeadKept(b, m);
      PieceShrinks(u, z, Kept(z, ModeAfter(u, m)), Kept(b, m));
    }
  }

  lemma HeadOfText(b: string) returns (u: string, z: string)
    requires b != "" && CodePoints(b).Ok?
    ensures Utf8Width(b) == Utf8Width(u) == |u| > 0 && b == u + z && u == b[..|u|] && z == b[|u|..]
    ensures |z| < |b| && CodePoints(z).Ok?
  {
    u, z := b[..Utf8Width(b)], b[Utf8Width(b)..];
    HeadByItself(b);
  }

  lemma BodyAgrees(b: string, m: Mode)
    requires QuoteFree(b) && CodePoints(b).Ok?
    ensures UnicodeEscaped(b) == UnicodeEscaped(Kept(b, m)) <==> SpacesAgree(b, m, true)
  {
    BodyKeptWhole(b, m);
    EscapesShrink(b, m);
  }

  // ----- both passes, in either order

  lemma JoinedAlike(o: string, b: string, x: string, o': string, b': string, x': string)
    requires QuoteFree(o) && QuoteFree(b) && QuoteFree(o') && QuoteFree(b')
    ensures Joined(o, b, x) == Joined(o', b', x') <==> o == o' && b == b' && x == x'
  {
    var s, s' := Joined(o, b, x), Joined(o', b', x');
    if s == s' {
      FindQuoteAt(o, b + ("\"" + x));
      FindQuoteAt(o', b' + ("\"" + x'));
      assert s[..|o|] == o && s'[..|o'|] == o';
      var t, t' := b + ("\"" + x), b' + ("\"" + x');
      assert s[|o| + 1..] == t && s'[|o'| + 1..] == t';
      FindQuoteAt(b, x);
      FindQuoteAt(b', x');
      assert t[..|b|] == b && t'[..|b'|] == b' && t[|b| + 1..] == x && t'[|b'| + 1..] == x';
    }
  }

  /** When every quote has a partner, the obfuscated text minifies; and it agrees exactly where the spaces do. */
  lemma {:induction false} PairsAgree(s: string, m: Mode)
    requires !Unpaired(s) && ReadablePairs(s)
    ensures ModeAfter(Obfuscated(s), Outside) == Outside
    ensures Kept(Obfuscated(s), Outside) == Obfuscated(Kept(s, m)) <==> SpacesAgree(s, m, false)
    decreases |s|
  {
    PairJoined(s);
    match PairCut(s) {
      case NoLiteral =>
        OutsideKept(s);
        GapAgrees(s, m);
        QuoteFreeKept(s, m);
        NoQuoteFound(Kept(s, m));
      case Cut(o, b, r) =>
        PairAgrees(o, b, r, m);
        PairsAgree(r, Step(ModeAfter(b, Step(ModeAfter(o, m), '\"')), '\"'));
    }
  }

  /** One pair and what is around it. */
  lemma PairAgrees(o: string, b: string, r: string, m: Mode)
    requires QuoteFree(o) && QuoteFree(b) && CodePoints(b).Ok?
    ensures var s, m2 := Joined(o, b, r), Step(ModeAfter(b, Step(ModeAfter(o, m), '\"')), '\"');
            && ModeAfter(Obfuscated(s), Outside) == ModeAfter(Obfuscated(r), Outside)
            && (Kept(Obfuscated(s), Outside) == Obfuscated(Kept(s, m)) <==>
                && SpacesAgree(o, m, false) && SpacesAgree(b, Step(ModeAfter(o, m), '\"'), true)
                && Kept(Obfuscated(r), Outside) == Obfuscated(Kept(r, m2)))
            && (SpacesAgree(s, m, false) <==>
                && SpacesAgree(o, m, false) && SpacesAgree(b, Step(ModeAfter(o, m), '\"'), true)
                && SpacesAgree(r, m2, false))
  {
    var m1 := Step(ModeAfter(o, m), '\"');
    var m2 := Step(ModeAfter(b, m1), '\"');
    var e, o', b' := UnicodeEscaped(b), Kept(o, m), Kept(b, m1);
    JoinedPasses(o, b, r, m);
    ObfuscatedJoined(o, b, r);
    EscapedIsDigits(b);
    EscapedIsDigits(b');
    ObfuscatedText.JoinedShrinks(o, e, Obfuscated(r), Kept(Obfuscated(r), Outside));
    QuoteFreeKept(o, m);
    QuoteFreeKept(b, m1);
    ObfuscatedJoined(o', b', Kept(r, m2));
    NoSpacesQuoteFree(o);
    JoinedAlike(NoSpaces(o), e, Kept(Obfuscated(r), Outside), o', UnicodeEscaped(b'), Obfuscated(Kept(r, m2)));
    GapAgrees(o, m);
    BodyAgrees(b, m1);
  }

  lemma {:induction false} NeverOutside(s: string, m: Mode)
    requires QuoteFree(s) && m != Outside
    ensures ModeAfter(s, m) != Outside
  {
    if s != "" {
      assert s[0] in s;
      NeverOutside(s[1..], Step(m, s[0]));
    }
  }

  /** A quote without a partner opens a literal that the minifier cannot close. */
  lemma {:induction false} UnpairedThrows(s: string)
    requires Unpaired(s)
    ensures ModeAfter(Obfuscated(s), Outside) != Outside
    decreases |s|
  {
    PairJoined(s);
    match PairCut(s) {
      case Unclosed =>
        var i := FindQuote(s);
        var t := s[i + 1..];
        assert t[..|t|] == t && s == s[..i] + ("\"" + t);
        OutsideKept(s[..i]);
        ModeConcat(s[..i], "\"" + t, Outside);
        QuoteThen(t, Outside, false);
        NeverOutside(t, Inside);
      case Cut(o, b, r) =>
        UnpairedThrows(r);
        ObfuscatedJoined(o, b, r);
        EscapedIsDigits(b);
        ObfuscatedText.JoinedShrinks(o, UnicodeEscaped(b), Obfuscated(r), "");
    }
  }

  lemma UnitThen(a: string, rest: string, cc: int)
    requires a != "" && CodeWidth(ByteOf(a, 0)) == |a| && DecodeUtf8(a) == cc
    ensures UnicodeEscaped(a + rest) == EscapeUnit(cc) + UnicodeEscaped(rest)
  {
    assert ByteOf(a + rest, 0) == ByteOf(a, 0) && Taken(a + rest) == |a|;
    assert (a + rest)[..|a|] == a && (a + rest)[|a|..] == rest;
  }

  lemma TwoUnits(a: string, b: string)
    requires a != "" && CodeWidth(ByteOf(a, 0)) == |a| && DecodeUtf8(a) == 0xE0
    requires b != "" && CodeWidth(ByteOf(b, 0)) == |b| && DecodeUtf8(b) == 0
    ensures UnicodeEscaped(a + b) == EscapeUnit(0xE0) + EscapeUnit(0)
  {
    UnitThen(a, b, 0xE0);
    UnitThen(b, "", 0);
    assert b + "" == b && EscapeUnit(0) + "" == EscapeUnit(0);
  }

  lemma LatinUnit(a: string)
    requires |a| == 2 && a[0] == '\U{C3}' && (a[1] == ' ' || a[1] == '\U{E0}')
    ensures CodeWidth(ByteOf(a, 0)) == |a| && DecodeUtf8(a) == 0xE0
  {
  }

  lemma NullUnit(a: string)
    requires (|a| == 3 && a[0] == '\U{E0}') || (|a| == 2 && a[0] == '\U{C0}')
    requires forall i | 0 < i < |a| :: a[i] == '\U{C0}'
    ensures CodeWidth(ByteOf(a, 0)) == |a| && DecodeUtf8(a) == 0
  {
  }

  /** With broken sequences a body can escape as it would without its space: the bytes C3 20 E0 C0 C0. */
  lemma BrokenBodyAlike(body: string)
    requires |body| == 5 && body[0] == '\U{C3}' && body[1] == ' ' && body[2] == '\U{E0}'
    requires body[3] == body[4] == '\U{C0}'
    ensures UnicodeEscaped(body) == UnicodeEscaped(body[..1] + body[2..])
  {
    var c := body[..1] + body[2..];
    LatinUnit(body[..2]);
    NullUnit(body[2..]);
    LatinUnit(c[..2]);
    NullUnit(c[2..]);
    TwoUnits(body[..2], body[2..]);
    TwoUnits(c[..2], c[2..]);
    assert body == body[..2] + body[2..] && c == c[..2] + c[2..];
  }

  function ObfuscatedAfter(r: Result<string>): Result<string> {
    match r
    case Ok(s) => Ok(Obfuscated(s))
    case Throw => Throw
  }

  /**
   The two orders give the same, a throw included, exactly when: with a quote left over, some literal is not
   closed; with all quotes in pairs, all literals are closed, and the spaces agree.
   */
  lemma CommuteExactly(s: string)
    requires ReadablePairs(s)
    ensures Minified(Obfuscated(s)) == ObfuscatedAfter(Minified(s)) <==>
            if Unpaired(s) then Lex(s).Throw? else Lex(s).Ok? && SpacesAgree(s, Outside, false)
  {
    MinifiedIsSqueezed(s);
    if Unpaired(s) {
      UnpairedThrows(s);
    } else {
      PairsAgree(s, Outside);
    }
  }
}
