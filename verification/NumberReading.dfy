/** The numbers of RFC 8259 section 6, and what `parse` makes of them. */
module NumberReading {
  import opened Outcomes
  import opened JsonValues
  import opened Numerals
  import opened JsonParser

  datatype Exponent = NoExponent | Exponent(letter: char, sign: string, digits: string)

  /** The parts of a number; no fraction when its digits are empty. */
  datatype Numeral = Numeral(negative: bool, whole: string, fraction: string, exponent: Exponent)

  predicate Grammatical(n: Numeral) {
    && n.whole != "" && AllDigits(n.whole) && (n.whole[0] == '0' ==> |n.whole| == 1)
    && AllDigits(n.fraction)
    && match n.exponent
       case NoExponent => true
       case Exponent(letter, sign, digits) =>
         letter in {'e', 'E'} && sign in {"", "+", "-"} && digits != "" && AllDigits(digits)
  }

  function ExponentText(e: Exponent): string {
    match e
    case NoExponent => ""
    case Exponent(letter, sign, digits) => [letter] + (sign + digits)
  }

  function Tail(n: Numeral): string {
    (if n.fraction == "" then "" else "." + n.fraction) + ExponentText(n.exponent)
  }

  function TextOf(n: Numeral): string {
    (if n.negative then "-" else "") + (n.whole + Tail(n))
  }

  predicate IsInteger(n: Numeral) {
    n.fraction == "" && n.exponent.NoExponent?
  }

  function Signed(negative: bool, v: nat): int {
    if negative then -(v as int) else v
  }

  /** The power of ten that the digits before and after the point, as one number, are multiplied by. */
  function Scale(n: Numeral): int
    requires Grammatical(n)
  {
    (match n.exponent
     case NoExponent => 0
     case Exponent(_, sign, digits) => Signed(sign == "-", NatValue(digits))) - |n.fraction|
  }

  /** Rounded to 53 bits, `digits` times ten to the power of `k` is 2^1024 or more. */
  predicate BeyondDouble(digits: nat, k: int) {
    if k >= 0 then digits * Power(10, k) >= HalfBeyond() else digits >= HalfBeyond() * Power(10, -k)
  }

  /** Half way from the largest double to 2^1024. */
  function HalfBeyond(): int {
    (Power(2, 54) - 1) * Power(2, 970)
  }

  /** What reading a number must give. */
  function Reading(n: Numeral): Result<Json>
    requires Grammatical(n)
  {
    if IsInteger(n) then
      var v := Signed(n.negative, NatValue(n.whole));
      if !(-9223372036854775808 <= v <= 9223372036854775807) then Throw
      else if -2147483648 <= v <= 2147483647 then Ok(Int(v))
      else Ok(LongLong(v))
    else if BeyondDouble(NatValue(n.whole + n.fraction), Scale(n)) then Throw
    else
      TextIsFloat(n);
      Ok(Double(TextOf(n)))
  }

  lemma TextIsFloat(n: Numeral)
    requires Grammatical(n)
    ensures TextOf(n) != "" && forall c | c in TextOf(n) :: IsFloatChar(c)
  {
  }

  // ----- the limit

  lemma {:induction false} PowerSum(b: nat, m: nat, n: nat)
    ensures Power(b, m + n) == Power(b, m) * Power(b, n)
  {
    if m > 0 {
      PowerSum(b, m - 1, n);
      Associate(b, Power(b, m - 1), Power(b, n));
    }
  }

  lemma Associate(x: int, y: int, z: int)
    ensures x * (y * z) == (x * y) * z
  {
  }

  lemma LimitSame(m: nat, e: nat)
    requires m == DBL_MANT_DIG + 1 && e == DBL_MAX_EXP
    ensures Power(2, e) - Power(2, e - m) == (Power(2, m) - 1) * Power(2, e - m)
  {
    PowerSum(2, m, e - m);
  }

  lemma LimitIsHalf()
    ensures Power(2, DBL_MAX_EXP) - Power(2, DBL_MAX_EXP - DBL_MANT_DIG - 1) == HalfBeyond()
  {
    LimitSame(DBL_MANT_DIG + 1, DBL_MAX_EXP);
  }

  lemma BeyondIsTooLarge(digits: nat, k: int)
    ensures TooLarge(digits, k) <==> BeyondDouble(digits, k)
  {
    LimitIsHalf();
  }

  // ----- cutting a text

  lemma {:induction false} RunOf(w: string, rest: string)
    requires AllDigits(w) && (rest != "" ==> !IsDigit(rest[0]))
    ensures DigitRun(w + rest) == |w|
  {
    if w == "" {
      assert w + rest == rest;
    } else {
      assert w[0] in w && (w + rest)[1..] == w[1..] + rest;
      RunOf(w[1..], rest);
    }
  }

  lemma ExponentOf(e: Exponent)
    requires e.Exponent? && e.letter in {'e', 'E'} && e.sign in {"", "+", "-"} && e.digits != "" && AllDigits(e.digits)
    ensures IsExponent(ExponentText(e))
    ensures ExponentValue(ExponentText(e)) == Signed(e.sign == "-", NatValue(e.digits))
  {
    var s := ExponentText(e);
    assert e.digits[0] in e.digits;
    assert s[1..] == e.sign + e.digits;
    if e.sign != "" {
      assert s[2..] == e.digits;
    } else {
      assert s[1..] == e.digits;
    }
  }

  function Body(n: Numeral): string {
    n.whole + Tail(n)
  }

  lemma SignCut(n: Numeral)
    requires Grammatical(n)
    ensures var s := TextOf(n); s != "" && (s[0] == '-' <==> n.negative)
    ensures (if n.negative then TextOf(n)[1..] else TextOf(n)) == Body(n)
  {
    assert n.whole[0] in n.whole;
  }

  lemma WholeCut(n: Numeral)
    requires Grammatical(n)
    ensures DigitRun(Body(n)) == |n.whole| && Body(n)[..|n.whole|] == n.whole
    ensures Body(n)[|n.whole|..] == Tail(n) && (Tail(n) == "" <==> IsInteger(n))
  {
    RunOf(n.whole, Tail(n));
  }

  lemma FractionCut(n: Numeral)
    requires Grammatical(n) && n.fraction != ""
    ensures var t, m := Tail(n), |n.fraction|;
            && |t| > m && t[0] == '.' && DigitRun(t[1..]) == m && t[1..][..m] == n.fraction
            && t[1 + m..] == ExponentText(n.exponent) && (|t| == 1 + m <==> n.exponent.NoExponent?)
  {
    var t, x := Tail(n), ExponentText(n.exponent);
    assert t == "." + (n.fraction + x) && t[1..] == n.fraction + x;
    RunOf(n.fraction, x);
  }

  lemma TailForm(n: Numeral)
    requires Grammatical(n) && !IsInteger(n)
    ensures IsFractionExponent(Tail(n))
  {
    if n.exponent.Exponent? {
      ExponentOf(n.exponent);
    }
    if n.fraction == "" {
      assert Tail(n) == ExponentText(n.exponent);
    } else {
      FractionCut(n);
    }
  }

  lemma FormOf(n: Numeral)
    requires Grammatical(n)
    ensures NumberFormOf(TextOf(n)) == if IsInteger(n) then Integer else Real
  {
    SignCut(n);
    WholeCut(n);
    if !IsInteger(n) {
      TailForm(n);
    }
  }

  lemma IntegerOf(n: Numeral)
    requires Grammatical(n) && IsInteger(n)
    ensures NumberFormOf(TextOf(n)) == Integer && IntegerValue(TextOf(n)) == Signed(n.negative, NatValue(n.whole))
  {
    FormOf(n);
    SignCut(n);
    WholeCut(n);
    assert Body(n) == n.whole;
  }

  lemma DigitsOf(n: Numeral)
    requires Grammatical(n) && !IsInteger(n) && NumberFormOf(TextOf(n)) == Real
    ensures RealDigits(TextOf(n)) == NatValue(n.whole + n.fraction)
  {
    SignCut(n);
    WholeCut(n);
    if n.fraction == "" {
      assert n.whole + n.fraction == n.whole && Tail(n) == ExponentText(n.exponent);
    } else {
      FractionCut(n);
    }
  }

  lemma TailScaleOf(n: Numeral)
    requires Grammatical(n) && !IsInteger(n) && IsFractionExponent(Tail(n))
    ensures TailScale(Tail(n)) == Scale(n)
  {
    if n.exponent.Exponent? {
      ExponentOf(n.exponent);
    }
    if n.fraction == "" {
      assert Tail(n) == ExponentText(n.exponent);
    } else {
      FractionCut(n);
    }
  }

  lemma ScaleOf(n: Numeral)
    requires Grammatical(n) && !IsInteger(n) && NumberFormOf(TextOf(n)) == Real
    ensures RealScale(TextOf(n)) == Scale(n)
  {
    SignCut(n);
    WholeCut(n);
    assert Unsigned(TextOf(n)) == Body(n);
    TailForm(n);
    TailScaleOf(n);
  }

  lemma RangeOf(n: Numeral)
    requires Grammatical(n) && !IsInteger(n)
    ensures NumberFormOf(TextOf(n)) == Real
    ensures OutOfRange(TextOf(n)) <==> BeyondDouble(NatValue(n.whole + n.fraction), Scale(n))
  {
    FormOf(n);
    DigitsOf(n);
    ScaleOf(n);
    BeyondIsTooLarge(NatValue(n.whole + n.fraction), Scale(n));
  }

  /** Every number of the grammar is read as it should be. */
  lemma NumeralRead(n: Numeral)
    requires Grammatical(n)
    ensures ParseScalar(TextOf(n)) == Reading(n)
  {
    if IsInteger(n) {
      IntegerOf(n);
    } else {
      RangeOf(n);
    }
  }

  // ----- and nothing else is a number

  lemma SplitExponent(s: string) returns (e: Exponent)
    requires IsExponent(s)
    ensures e.Exponent? && e.letter in {'e', 'E'} && e.sign in {"", "+", "-"} && e.digits != "" && AllDigits(e.digits)
    ensures ExponentText(e) == s
  {
    if s[1] == '+' || s[1] == '-' {
      e := Exponent(s[0], [s[1]], s[2..]);
    } else {
      e := Exponent(s[0], "", s[1..]);
    }
  }

  lemma SplitTail(tail: string) returns (fraction: string, exponent: Exponent)
    requires IsFractionExponent(tail)
    ensures var n := Numeral(false, "0", fraction, exponent); Grammatical(n) && Tail(n) == tail
  {
    fraction, exponent := "", NoExponent;
    if tail[0] == '.' {
      var m := DigitRun(tail[1..]);
      fraction := tail[1..][..m];
      if 1 + m < |tail| {
        exponent := SplitExponent(tail[1 + m..]);
      }
      assert tail == "." + fraction + tail[1 + m..];
    } else {
      exponent := SplitExponent(tail);
    }
  }

  lemma SameTail(n: Numeral, m: Numeral)
    requires n.fraction == m.fraction && n.exponent == m.exponent
    ensures Tail(n) == Tail(m)
  {
  }

  /** A text that the pattern takes for a number has the parts of one. */
  lemma SplitUnsigned(t: string) returns (n: Numeral)
    requires DigitRun(t) > 0 && (t[0] == '0' ==> DigitRun(t) == 1)
    requires DigitRun(t) == |t| || IsFractionExponent(t[DigitRun(t)..])
    ensures Grammatical(n) && Body(n) == t
  {
    var k := DigitRun(t);
    var fraction, exponent := "", NoExponent;
    if k < |t| {
      fraction, exponent := SplitTail(t[k..]);
    }
    n := Numeral(false, t[..k], fraction, exponent);
    SameTail(n, Numeral(false, "0", fraction, exponent));
    assert t == t[..k] + t[k..];
  }

  /** A text that the pattern takes for a number has the parts of one. */
  lemma Split(s: string) returns (n: Numeral)
    requires NumberFormOf(s) != NotNumber
    ensures Grammatical(n) && TextOf(n) == s
  {
    if s[0] == '-' {
      n := SplitUnsigned(s[1..]);
      n := WithSign(n, s[1..]);
    } else {
      n := SplitUnsigned(s);
      n := n.(negative := false);
    }
  }

  lemma WithSign(n: Numeral, t: string) returns (m: Numeral)
    requires Grammatical(n) && Body(n) == t
    ensures Grammatical(m) && TextOf(m) == "-" + t
  {
    m := n.(negative := true);
    SameTail(n, m);
  }

  /** Any other text is one of the three words, or zero. */
  lemma OtherRead(s: string)
    requires forall n: Numeral | Grammatical(n) :: TextOf(n) != s
    ensures ParseScalar(s)
         == Ok(if s == "null" then Enum(-1)
               else if s == "true" then Enum(1)
               else if s == "false" then Enum(0)
               else Int(0))
  {
    if NumberFormOf(s) != NotNumber {
      var n := Split(s);
    }
  }
}
