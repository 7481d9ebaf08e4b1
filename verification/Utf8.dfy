/** The valid sequences against the table of RFC 3629 section 3, and surrogates against RFC 8259 section 7. */
module Utf8 {
  import opened Words
  import opened Obfuscator

  /** The bytes of a code point. */
  function Utf8Of(p: int): string
    requires 0 <= p <= 0x10FFFF
  {
    if p <= 0x7F then [p as char]
    else if p <= 0x7FF then [(0xC0 + p / 64) as char, (0x80 + p % 64) as char]
    else if p <= 0xFFFF then [(0xE0 + p / 4096) as char, (0x80 + p / 64 % 64) as char, (0x80 + p % 64) as char]
    else [(0xF0 + p / 262144) as char, (0x80 + p / 4096 % 64) as char, (0x80 + p / 64 % 64) as char,
          (0x80 + p % 64) as char]
  }

  lemma TwoBack(p: int)
    requires 0x80 <= p <= 0x7FF
    ensures Utf8Width(Utf8Of(p)) == 2 && Utf8Point(Utf8Of(p)) == p
  {
  }

  lemma ThreeBack(p: int)
    requires 0x800 <= p <= 0xFFFF && !(0xD800 <= p <= 0xDFFF)
    ensures Utf8Width(Utf8Of(p)) == 3 && Utf8Point(Utf8Of(p)) == p
  {
  }

  lemma FourDigits(p: int, w: int, x: int)
    requires 0x10000 <= p <= 0x10FFFF && w == p / 262144 && x == p / 4096 % 64
    ensures 0 <= w <= 4 && (w == 0 ==> x >= 16) && (w == 4 ==> x <= 15)
    ensures p == w * 262144 + x * 4096 + p / 64 % 64 * 64 + p % 64
  {
    assert p / 4096 == w * 64 + x && p / 64 == p / 4096 * 64 + p / 64 % 64;
  }

  lemma FourBack(p: int)
    requires 0x10000 <= p <= 0x10FFFF
    ensures Utf8Width(Utf8Of(p)) == 4 && Utf8Point(Utf8Of(p)) == p
  {
    FourDigits(p, p / 262144, p / 4096 % 64);
    FourBytes(Utf8Of(p), p / 262144, p / 4096 % 64, p / 64 % 64, p % 64);
  }

  lemma FourBytes(s: string, w: int, x: int, y: int, z: int)
    requires |s| == 4 && s[0] as int == 0xF0 + w && s[1] as int == 0x80 + x
    requires s[2] as int == 0x80 + y && s[3] as int == 0x80 + z
    requires 0 <= w <= 4 && 0 <= x < 64 && 0 <= y < 64 && 0 <= z < 64
    requires (w == 0 ==> x >= 16) && (w == 4 ==> x <= 15)
    ensures Utf8Width(s) == 4 && Utf8Point(s) == w * 262144 + x * 4096 + y * 64 + z
  {
  }

  /** Every code point but the surrogates is valid as encoded, and is read back. */
  lemma Utf8Back(p: int)
    requires 0 <= p < 0xD800 || 0xE000 <= p <= 0x10FFFF
    ensures Utf8Width(Utf8Of(p)) == |Utf8Of(p)| && Utf8Point(Utf8Of(p)) == p
  {
    if 0x80 <= p <= 0x7FF {
      TwoBack(p);
    } else if 0x800 <= p <= 0xFFFF {
      ThreeBack(p);
    } else if p > 0xFFFF {
      FourBack(p);
    }
  }

  lemma DigitsOfTwo(x: int, y: int, p: int)
    requires 0 <= y < 64 && p == x * 64 + y
    ensures p / 64 == x && p % 64 == y
  {
  }

  lemma DigitsOfThree(x: int, y: int, z: int, p: int)
    requires 0 <= y < 64 && 0 <= z < 64 && p == x * 4096 + y * 64 + z
    ensures p / 4096 == x && p / 64 % 64 == y && p % 64 == z
  {
  }

  lemma LastDigit(q: int, r: int, p: int)
    requires 0 <= r < 64 && p == q * 64 + r
    ensures p / 64 == q && p % 64 == r
  {
  }

  lemma Nested(p: int)
    ensures p / 64 / 64 == p / 4096 && p / 4096 / 64 == p / 262144
  {
  }

  lemma DigitsOfFour(w: int, x: int, y: int, z: int, p: int)
    requires 0 <= x < 64 && 0 <= y < 64 && 0 <= z < 64 && p == w * 262144 + x * 4096 + y * 64 + z
    ensures p / 262144 == w && p / 4096 % 64 == x && p / 64 % 64 == y && p % 64 == z
  {
    LastDigit(w * 4096 + x * 64 + y, z, p);
    LastDigit(w * 64 + x, y, p / 64);
    LastDigit(w, x, p / 64 / 64);
    Nested(p);
  }

  /** Nothing else is valid. */
  lemma Utf8Only(s: string)
    requires Utf8Width(s) > 0
    ensures var p := Utf8Point(s); (0 <= p < 0xD800 || 0xE000 <= p <= 0x10FFFF) && s[..Utf8Width(s)] == Utf8Of(p)
  {
    PointRange(s);
    var b, p := s[0] as int, Utf8Point(s);
    match Utf8Width(s) {
      case 1 =>
      case 2 =>
        DigitsOfTwo(b - 0xC0, s[1] as int - 0x80, p);
      case 3 =>
        DigitsOfThree(b - 0xE0, s[1] as int - 0x80, s[2] as int - 0x80, p);
      case _ =>
        DigitsOfFour(b - 0xF0, s[1] as int - 0x80, s[2] as int - 0x80, s[3] as int - 0x80, p);
    }
  }

  // ----- surrogates

  lemma HighAlone(a: string, b: string, rest: string)
    requires |a| == |b| == 6 && HasUnit(a) && HasUnit(b) && High(Unit(a)) && !Low(Unit(b))
    ensures Meaning(a + (b + rest)) == PrependPoints([Unit(a)], Meaning(b + rest))
  {
    UnitPrefix(a, b + rest);
    UnitPrefix(b, rest);
    assert HeadOf(a + (b + rest)) == Head(Unit(a), 6);
  }

  /** Two `\u` escapes are one character if they are a pair of surrogates, and otherwise the first is one. */
  lemma PairOrNot(a: string, b: string, rest: string)
    requires |a| == |b| == 6 && HasUnit(a) && HasUnit(b)
    ensures var u, v := Unit(a), Unit(b);
            Meaning(a + (b + rest))
            == if 0xD800 <= u <= 0xDBFF && 0xDC00 <= v <= 0xDFFF
               then PrependPoints([0x10000 + (u - 0xD800) * 0x400 + (v - 0xDC00)], Meaning(rest))
               else PrependPoints([u], Meaning(b + rest))
  {
    if !High(Unit(a)) {
      OneUnitMeaning(a, b + rest);
    } else if Low(Unit(b)) {
      PairMeaning(a, b, rest);
    } else {
      HighAlone(a, b, rest);
    }
  }

  // ----- sequences cut short

  function Nulls(k: nat): (s: string)
    ensures |s| == k
  {
    seq(k, _ => '\0')
  }

  lemma SameDecoding(s: string, t: string)
    requires forall i: nat :: ByteOf(s, i) == ByteOf(t, i)
    ensures DecodeUtf8(s) == DecodeUtf8(t)
  {
  }

  /** A sequence cut short by the end of the text is escaped as if null bytes followed. */
  lemma CutSequence(s: string, k: nat)
    requires s != "" && k == CodeWidth(ByteOf(s, 0)) && |s| < k
    ensures UnicodeEscaped(s) == UnicodeEscaped(s + Nulls(k - |s|))
  {
    var t := s + Nulls(k - |s|);
    assert forall i: nat :: ByteOf(s, i) == ByteOf(t, i);
    SameDecoding(s, t);
    WholeText(s, "");
    WholeText(t, "");
  }

  lemma WholeText(s: string, rest: string)
    requires s != "" && |s| <= CodeWidth(ByteOf(s, 0)) && rest == ""
    ensures UnicodeEscaped(s) == EscapeUnit(DecodeUtf8(s)) + UnicodeEscaped(rest)
  {
    assert Taken(s) == |s| && s[..|s|] == s && s[|s|..] == rest;
    EscapedParts(s, s, rest);
  }
}
