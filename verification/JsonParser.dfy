/** The parser: `strip`, `unescapify`, `parse`. */
module JsonParser {
  import opened Outcomes
  import opened JsonValues
  import opened Numerals

  // ----- strip

  predicate IsSpace(c: char) {
    c == ' ' || c == '\t' || c == '\n' || c == '\r'
  }

  predicate AllSpace(s: string) {
    forall c | c in s :: IsSpace(c)
  }

  /** The white space of RFC 8259 section 2. */
  predicate IsWhite(c: char) {
    c as int in {0x20, 0x09, 0x0A, 0x0D}
  }

  predicate AllWhite(s: string) {
    forall i | 0 <= i < |s| :: IsWhite(s[i])
  }

  /** What `strip` must return: `s` without the white space at its two ends. */
  ghost predicate IsStripped(s: string, r: string) {
    && (r == "" ==> AllWhite(s))
    && (r != "" ==>
          && !IsWhite(r[0]) && !IsWhite(r[|r| - 1])
          && exists pre: string, post: string :: AllWhite(pre) && AllWhite(post) && s == pre + r + post)
  }

  function TrimLeft(s: string): (r: string)
    ensures |r| <= |s|
  {
    if s == "" || !IsSpace(s[0]) then s else TrimLeft(s[1..])
  }

  function TrimRight(s: string): (r: string)
    ensures |r| <= |s|
  {
    if s == "" || !IsSpace(s[|s| - 1]) then s else TrimRight(s[..|s| - 1])
  }

  function Strip(s: string): (r: string)
    ensures |r| <= |s|
  {
    TrimRight(TrimLeft(s))
  }

  lemma {:induction false} TrimLeftParts(pre: string, s: string)
    requires AllSpace(pre)
    ensures TrimLeft(pre + s) == TrimLeft(s)
  {
    if pre == "" {
      assert pre + s == s;
    } else {
      assert pre[0] in pre && (pre + s)[1..] == pre[1..] + s;
      TrimLeftParts(pre[1..], s);
    }
  }

  lemma {:induction false} TrimRightParts(s: string, post: string)
    requires AllSpace(post)
    ensures TrimRight(s + post) == TrimRight(s)
  {
    if post == "" {
      assert s + post == s;
    } else {
      var k := |post| - 1;
      assert post[k] in post && (s + post)[..|s + post| - 1] == s + post[..k];
      TrimRightParts(s, post[..k]);
    }
  }

  lemma StripParts(pre: string, r: string, post: string)
    requires AllSpace(pre) && AllSpace(post)
    requires r != "" ==> !IsSpace(r[0]) && !IsSpace(r[|r| - 1])
    ensures Strip(pre + r + post) == r
  {
    assert pre + r + post == pre + (r + post);
    TrimLeftParts(pre, r + post);
    if r == "" {
      assert r + post == post + "";
      TrimLeftParts(post, "");
    } else {
      TrimRightParts(r, post);
    }
  }

  lemma SpaceIsWhite()
    ensures forall c :: IsSpace(c) <==> IsWhite(c)
    ensures forall s :: AllSpace(s) <==> AllWhite(s)
  {
    forall s ensures AllSpace(s) <==> AllWhite(s) {
      if AllSpace(s) {
        assert forall i | 0 <= i < |s| :: s[i] in s;
      }
    }
  }

  method StripText(s: string) returns (r: string)
    ensures r == Strip(s) && IsStripped(s, r)
  {
    SpaceIsWhite();
    var begin := 0;
    while begin < |s| && IsSpace(s[begin])
      invariant 0 <= begin <= |s|
      invariant AllSpace(s[..begin])
    {
      assert s[..begin + 1] == s[..begin] + [s[begin]];
      begin := begin + 1;
    }
    var end := |s| - 1;
    while end > -1 && IsSpace(s[end])
      invariant -1 <= end < |s|
      invariant begin < |s| ==> begin <= end
      invariant AllSpace(s[end + 1..])
    {
      assert s[end..] == [s[end]] + s[end + 1..];
      end := end - 1;
    }
    if begin > end {
      assert s == s + "" + "" && s[..|s|] == s;
      StripParts(s, "", "");
      return "";
    }
    StrippedSlice(s, begin, end + 1);
    r := s[begin..end + 1];
  }

  lemma StrippedSlice(s: string, i: nat, j: nat)
    requires i < j <= |s| && AllSpace(s[..i]) && AllSpace(s[j..]) && !IsSpace(s[i]) && !IsSpace(s[j - 1])
    ensures Strip(s) == s[i..j] && IsStripped(s, s[i..j])
  {
    var r := s[i..j];
    SpaceIsWhite();
    assert s == s[..i] + r + s[j..];
    StripParts(s[..i], r, s[j..]);
  }

  // ----- unescapify

  /** `find` in the two tables of `hex_to_int`; a byte in neither gives -1. */
  function HexDigit(c: char): int {
    if '0' <= c <= '9' then c as int - '0' as int
    else if 'A' <= c <= 'F' then c as int - 'A' as int + 10
    else if 'a' <= c <= 'f' then c as int - 'a' as int + 10
    else -1
  }

  /** `hex_to_int` reads the last byte first, so the first one counts least times one. */
  function HexToInt(s: string): int {
    if s == "" then 0 else HexToInt(s[1..]) * 16 + HexDigit(s[0])
  }

  /** `s.substr(from, 4)`. */
  function Four(s: string, from: nat): string
    requires from <= |s|
  {
    s[from..if from + 4 <= |s| then from + 4 else |s|]
  }

  /** What the escape at the head of `s` adds to the output; a lone surrogate near the end throws. */
  function EscapeMeaning(s: string): Result<string>
    requires s != "" && s[0] == '\\'
  {
    match if |s| > 1 then s[1] else '\0'
    case '\"' => Ok("\"")
    case '\\' => Ok("\\")
    case '/' => Ok("/")
    case 'b' => Ok("\U{08}")
    case 'f' => Ok("\U{0C}")
    case 'n' => Ok("\n")
    case 'r' => Ok("\r")
    case 't' => Ok("\t")
    case 'u' =>
      if HexToInt(Four(s, 2)) / 1024 != 54 then Ok("")
      else if |s| < 8 then Throw
      else Ok([(HexToInt(Four(s, 8)) % 256) as char])
    case _ => Ok("\\")
  }

  function Unescape(s: string): Result<string>
    decreases |s|
  {
    if s == "" then Ok("")
    else if s[0] == '\\' then
      var head :- EscapeMeaning(s);
      var rest :- Unescape(if |s| == 1 then "" else s[2..]);
      Ok(head + rest)
    else
      var rest :- Unescape(s[1..]);
      Ok([s[0]] + rest)
  }

  function Prepend(head: string, r: Result<string>): Result<string> {
    if r.Throw? then Throw else Ok(head + r.value)
  }

  lemma PrependTwice(a: string, b: string, r: Result<string>)
    ensures Prepend(a, Prepend(b, r)) == Prepend(a + b, r)
  {
    assert r.Ok? ==> a + (b + r.value) == (a + b) + r.value;
  }

  /** One turn of the loop, on the text from `i` on. */
  lemma UnescapeTurn(s: string, i: nat, out: string)
    requires i < |s|
    ensures Prepend(out, Unescape(s[i..])) ==
            if s[i] != '\\' then Prepend(out + [s[i]], Unescape(s[i + 1..]))
            else if EscapeMeaning(s[i..]).Throw? then Throw
            else Prepend(out + EscapeMeaning(s[i..]).value, Unescape(if i + 1 == |s| then "" else s[i + 2..]))
  {
    if s[i] == '\\' {
      assert |s[i..]| > 1 ==> s[i..][2..] == s[i + 2..];
      if EscapeMeaning(s[i..]).Ok? {
        PrependTwice(out, EscapeMeaning(s[i..]).value, Unescape(if i + 1 == |s| then "" else s[i + 2..]));
      }
    } else {
      assert s[i..][1..] == s[i + 1..];
      PrependTwice(out, [s[i]], Unescape(s[i + 1..]));
    }
  }

  method Unescapify(s: string) returns (r: Result<string>)
    ensures r == Unescape(s)
  {
    var out := "";
    var i := 0;
    assert s[0..] == s && forall x: string :: "" + x == x;
    while i < |s|
      invariant 0 <= i <= |s|
      invariant Unescape(s) == Prepend(out, Unescape(s[i..]))
    {
      UnescapeTurn(s, i, out);
      if s[i] == '\\' {
        var head := EscapeMeaning(s[i..]);
        if head.Throw? {
          return Throw;
        }
        out := out + head.value;
        i := if i + 1 == |s| then i + 1 else i + 2;
      } else {
        out := out + [s[i]];
        i := i + 1;
      }
    }
    assert out + "" == out;
    return Ok(out);
  }

  // ----- numbers

  datatype NumberForm = NotNumber | Integer | Real

  /** Length of the longest run of digits at the head of `s`. */
  function DigitRun(s: string): (n: nat)
    ensures n <= |s|
    ensures AllDigits(s[..n])
    ensures n < |s| ==> !IsDigit(s[n])
  {
    if s == "" || !IsDigit(s[0]) then 0
    else
      var n := 1 + DigitRun(s[1..]);
      assert s[..n] == [s[0]] + s[1..][..n - 1];
      n
  }

  lemma {:induction false} DigitRunAll(s: string)
    requires AllDigits(s)
    ensures DigitRun(s) == |s|
  {
    if s != "" {
      assert s[0] in s;
      DigitRunAll(s[1..]);
    }
  }

  /** The exponent part of the number pattern, to the end of the text. */
  predicate IsExponent(s: string) {
    && |s| >= 2 && (s[0] == 'e' || s[0] == 'E')
    && var t := if s[1] == '+' || s[1] == '-' then s[2..] else s[1..];
    && t != "" && AllDigits(t)
  }

  /** What may follow the integer part of a real number. */
  predicate IsFractionExponent(s: string) {
    if s != "" && s[0] == '.' then
      var n := DigitRun(s[1..]);
      n > 0 && (1 + n == |s| || IsExponent(s[1 + n..]))
    else IsExponent(s)
  }

  /** The pattern `(-)?(0|[1-9][0-9]*)(\.[0-9]+)?([eE][-+]?[0-9]+)?` on the whole text. */
  function NumberFormOf(s: string): NumberForm {
    var t := if s != "" && s[0] == '-' then s[1..] else s;
    var n := DigitRun(t);
    if n == 0 || (n > 1 && t[0] == '0') then NotNumber
    else if n == |t| then Integer
    else if IsFractionExponent(t[n..]) then Real
    else NotNumber
  }

  /** `stoll` on a text of integer form. */
  function IntegerValue(s: string): int
    requires NumberFormOf(s) == Integer
  {
    if s[0] == '-' then assert s[1..][..|s| - 1] == s[1..]; -(NatValue(s[1..]) as int)
    else assert s[..|s|] == s; NatValue(s)
  }

  lemma FloatTextConcat(a: string, b: string)
    requires (forall c | c in a :: IsDigit(c)) && (forall c | c in b :: IsFloatChar(c))
    ensures forall c | c in a + b :: IsFloatChar(c)
  {
  }

  lemma UnsignedIsFloatText(t: string)
    requires IsFractionExponent(t[DigitRun(t)..])
    ensures forall c | c in t :: IsFloatChar(c)
  {
    var n := DigitRun(t);
    FractionIsFloatText(t[n..]);
    FloatTextConcat(t[..n], t[n..]);
    assert t == t[..n] + t[n..];
  }

  lemma RealIsFloatText(s: string)
    requires NumberFormOf(s) == Real
    ensures s != "" && forall c | c in s :: IsFloatChar(c)
  {
    if s[0] == '-' {
      UnsignedIsFloatText(s[1..]);
      assert s == ['-'] + s[1..];
    } else {
      UnsignedIsFloatText(s);
    }
  }

  lemma FractionIsFloatText(u: string)
    requires IsFractionExponent(u)
    ensures forall c | c in u :: IsFloatChar(c)
  {
    if u[0] == '.' {
      var m := DigitRun(u[1..]);
      if 1 + m < |u| { ExponentIsFloatText(u[1 + m..]); }
      assert u == "." + (u[1..][..m] + u[1 + m..]);
    } else {
      ExponentIsFloatText(u);
    }
  }

  lemma ExponentIsFloatText(s: string)
    requires IsExponent(s)
    ensures forall c | c in s :: IsFloatChar(c)
  {
    var k := if s[1] == '+' || s[1] == '-' then 2 else 1;
    assert s == s[..k] + s[k..];
  }

  const DBL_MANT_DIG: nat := 53
  const DBL_MAX_EXP: nat := 1024

  /** Whether `digits` times ten to the power of `e` rounds to a number beyond the largest `double`. */
  predicate TooLarge(digits: nat, e: int) {
    var limit := Power(2, DBL_MAX_EXP) - Power(2, DBL_MAX_EXP - DBL_MANT_DIG - 1);
    if e >= 0 then digits * Power(10, e) >= limit else digits >= limit * Power(10, -e)
  }

  function ExponentValue(s: string): int
    requires s == "" || IsExponent(s)
  {
    if s == "" then 0
    else if s[1] == '-' then -(NatValue(s[2..]) as int)
    else if s[1] == '+' then NatValue(s[2..])
    else NatValue(s[1..])
  }

  /** The part of a text of real form behind its sign. */
  function Unsigned(s: string): (t: string)
    requires NumberFormOf(s) == Real
    ensures DigitRun(t) < |t| && IsFractionExponent(t[DigitRun(t)..])
  {
    if s[0] == '-' then s[1..] else s
  }

  /** All its digits as one number. */
  function RealDigits(s: string): nat
    requires NumberFormOf(s) == Real
  {
    var t := Unsigned(s);
    var n := DigitRun(t);
    if t[n] == '.' then NatValue(t[..n] + t[n..][1..][..DigitRun(t[n..][1..])]) else NatValue(t[..n])
  }

  /** The exponent, less one for each digit of the fraction. */
  function TailScale(u: string): int
    requires IsFractionExponent(u)
  {
    if u[0] == '.' then ExponentValue(u[1 + DigitRun(u[1..])..]) - DigitRun(u[1..]) else ExponentValue(u)
  }

  /** The power of ten that the digits are multiplied by. */
  function RealScale(s: string): int
    requires NumberFormOf(s) == Real
  {
    var t := Unsigned(s);
    TailScale(t[DigitRun(t)..])
  }

  /** Whether `stod` throws on a text of real form. */
  predicate OutOfRange(s: string)
    requires NumberFormOf(s) == Real
  {
    TooLarge(RealDigits(s), RealScale(s))
  }

  /** The part of `parse` after the containers and strings: numbers and the three words. */
  function ParseScalar(t: string): Result<Json> {
    match NumberFormOf(t)
    case Real =>
      RealIsFloatText(t);
      if OutOfRange(t) then Throw else Ok(Double(t))
    case Integer =>
      var n := IntegerValue(t);
      if !(LLONG_MIN <= n <= LLONG_MAX) then Throw
      else if INT_MIN <= n <= INT_MAX then Ok(Int(n))
      else Ok(LongLong(n))
    case NotNumber =>
      if t == "null" then Ok(Enum(-1))
      else if t == "true" then Ok(Enum(1))
      else if t == "false" then Ok(Enum(0))
      else Ok(Int(0))
  }

  // ----- the container scanners

  /** The counters and the two buffers of the scanning loops; `list` tells which loop it is. */
  datatype Scan = Scan(list: bool, naming: bool, name: string, text: string, objs: int, lists: int, quoted: bool) {
    function Push(x: string): Scan {
      if naming then this.(name := name + x) else this.(text := text + x)
    }

    function Count(c: char): Scan {
      this.(objs := objs + ObjDelta(c), lists := lists + ListDelta(c))
    }

    /** A colon ends the name; only in the object loop. */
    predicate EndsName(c: char) {
      !list && c == ':' && objs == 0 && !quoted && naming
    }

    /** A comma ends the member or element; the list loop does not look at the quotes. */
    predicate EndsPiece(c: char) {
      c == ',' && objs == 0 && lists == 0 && (list || !quoted)
    }

    function Fresh(): Scan {
      this.(naming := !list, name := "", text := "")
    }

    /** After the tests on byte `x` and, if `x` is a backslash, on the byte `c` it escapes; else `c` is `x`. */
    function Seen(x: char, c: char): Scan {
      var a := this.(quoted := quoted != (x == '\"'));
      (if x == '\\' then a.Push("\\") else a).Count(c)
    }
  }

  function ObjDelta(c: char): int {
    if c == '{' then 1 else if c == '}' then -1 else 0
  }

  function ListDelta(c: char): int {
    if c == '[' then 1 else if c == ']' then -1 else 0
  }

  function Start(list: bool): Scan {
    Scan(list, !list, "", "", 0, 0, false)
  }

  datatype Piece = Piece(name: string, text: string)

  predicate Short(ps: seq<Piece>, n: nat) {
    forall i | 0 <= i < |ps| :: |ps[i].name| < n && |ps[i].text| < n
  }

  /**
   The pieces into which the loop cuts `u`, the rest of the text including the closing byte,
   which the loop never looks at on its own (but an escape can swallow it).
   */
  function Pieces(u: string, st: Scan): (r: seq<Piece>)
    ensures |r| > 0
    ensures Short(r, 1 + |u| + if |st.name| < |st.text| then |st.text| else |st.name|)
    decreases |u|
  {
    if |u| <= 1 then [Piece(st.name, st.text)]
    else
      var k := if u[0] == '\\' then 1 else 0;
      var c := u[k];
      var a := st.Seen(u[0], c);
      if a.EndsName(c) then Pieces(u[k + 1..], a.(naming := false))
      else if a.EndsPiece(c) then [Piece(a.name, a.text)] + Pieces(u[k + 1..], a.Fresh())
      else Pieces(u[k + 1..], a.Push([c]))
  }

  /** A list's last piece counts only when it is not empty. */
  function ListPieces(u: string, st: Scan): (r: seq<Piece>)
    ensures Short(r, 1 + |u| + if |st.name| < |st.text| then |st.text| else |st.name|)
  {
    DropEmptyLast(Pieces(u, st))
  }

  /** The pieces between the brackets of a container's text. */
  function Inner(t: string): (r: seq<Piece>)
    requires t != ""
    ensures |r| > 0 && Short(r, |t|)
  {
    Pieces(t[1..], Start(t[0] == '['))
  }

  function InnerItems(t: string): (r: seq<Piece>)
    requires t != ""
    ensures Short(r, |t|)
  {
    DropEmptyLast(Inner(t))
  }

  function DropEmptyLast(ps: seq<Piece>): (r: seq<Piece>)
    requires |ps| > 0
    ensures r <= ps
  {
    if ps[|ps| - 1].text == "" then ps[..|ps| - 1] else ps
  }

  // ----- parse

  /** Every recursive call gets a text strictly shorter than the stripped one, so `parse` ends on every input. */
  function Parse(s: string): Result<Json>
    decreases |s|, 1, 0
  {
    var t := Strip(s);
    if t == "" then Ok(Int(0))
    else if t[0] == '{' then
      var members :- ParseMembers(Inner(t), [], |t|);
      Ok(Object(members))
    else if t[0] == '[' then
      var items :- ParseItems(InnerItems(t), |t|);
      Ok(List(items))
    else if t[0] == '\"' then
      var inner :- Unescape(if |t| == 1 then "" else t[1..|t| - 1]);
      Ok(Str(inner))
    else ParseScalar(t)
  }

  function ParseMembers(ps: seq<Piece>, acc: Members, n: nat): Result<Members>
    requires Short(ps, n)
    decreases n, 0, |ps|
  {
    if ps == [] then Ok(acc)
    else
      var v :- Parse(ps[0].text);
      var k :- Parse(ps[0].name);
      ParseMembers(ps[1..], Put(acc, StringOf(k), v), n)
  }

  function ParseItems(ps: seq<Piece>, n: nat): Result<seq<Json>>
    requires Short(ps, n)
    decreases n, 0, |ps|
  {
    if ps == [] then Ok([])
    else
      var v :- Parse(ps[0].text);
      var rest :- ParseItems(ps[1..], n);
      Ok([v] + rest)
  }

  // ----- the code of parse

  /** One turn of either loop, for the text from `i` on. */
  lemma PiecesStep(t: string, i: nat, st: Scan)
    requires i < |t| - 1
    ensures var k := if t[i] == '\\' then i + 1 else i;
            var a := st.Seen(t[i], t[k]);
            Pieces(t[i..], st) ==
            if a.EndsName(t[k]) then Pieces(t[k + 1..], a.(naming := false))
            else if a.EndsPiece(t[k]) then [Piece(a.name, a.text)] + Pieces(t[k + 1..], a.Fresh())
            else Pieces(t[k + 1..], a.Push([t[k]]))
  {
    var k := if t[i] == '\\' then 1 else 0;
    assert t[i..][k + 1..] == t[i + k + 1..];
  }

  /** Taking one member off the front of the pieces. */
  lemma MembersStep(p: Piece, ps: seq<Piece>, acc: Members, n: nat)
    requires |p.name| < n && |p.text| < n && Short(ps, n)
    ensures Short([p] + ps, n)
    ensures ParseMembers([p] + ps, acc, n) ==
            if Parse(p.text).Throw? || Parse(p.name).Throw? then Throw
            else ParseMembers(ps, Put(acc, StringOf(Parse(p.name).value), Parse(p.text).value), n)
  {
    assert ([p] + ps)[1..] == ps;
  }

  function PrependItems(head: seq<Json>, r: Result<seq<Json>>): Result<seq<Json>> {
    if r.Throw? then Throw else Ok(head + r.value)
  }

  method ParseText(s: string) returns (r: Result<Json>)
    ensures r == Parse(s)
    decreases |s|, 3
  {
    var t := StripText(s);
    if t == "" {
      return Ok(Int(0));
    }
    if t[0] == '{' {
      r := ParseObject(t);
    } else if t[0] == '[' {
      r := ParseList(t);
    } else if t[0] == '\"' {
      var inner := Unescapify(if |t| == 1 then "" else t[1..|t| - 1]);
      if inner.Throw? {
        return Throw;
      }
      r := Ok(Str(inner.value));
    } else {
      r := ParseScalar(t);
    }
  }

  /** The first tests of a turn: the quote, the backslash that takes the next byte along, the four brackets. */
  method Look(t: string, i: nat, st: Scan) returns (a: Scan, k: nat)
    requires i < |t| - 1
    ensures k == if t[i] == '\\' then i + 1 else i
    ensures a == st.Seen(t[i], t[k])
  {
    a, k := st, i;
    if t[i] == '\"' {
      a := a.(quoted := !a.quoted);
    }
    if t[i] == '\\' {
      a := a.Push("\\");
      k := i + 1;
    }
    a := a.Count(t[k]);
  }

  /** Both buffers hold fewer than `i` bytes. */
  ghost predicate Within(st: Scan, i: nat) {
    |st.name| < i && |st.text| < i
  }

  /** The statement `obj.val_object[parse(name).val_string] = parse(text)`. */
  method AssignMember(obj: JsonObject, name: string, text: string) returns (threw: bool)
    modifies obj
    ensures threw <==> Parse(name).Throw? || Parse(text).Throw?
    ensures !threw ==> obj.pairs == Put(old(obj.pairs), StringOf(Parse(name).value), Parse(text).value)
    decreases if |name| < |text| then |text| else |name|, 4
  {
    var val := ParseText(text);
    if val.Throw? {
      return true;
    }
    var key := ParseText(name);
    if key.Throw? {
      return true;
    }
    obj.Set(StringOf(key.value), val.value);
    return false;
  }

  /** What the object loop still has to make of the text from `i` on. */
  function MembersFrom(t: string, i: nat, st: Scan, acc: Members): Result<Members>
    requires 1 <= i <= |t| && Within(st, i)
  {
    ParseMembers(Pieces(t[i..], st), acc, |t|)
  }

  lemma CutStep(t: string, i: nat, k: nat, st: Scan, a: Scan)
    requires i < |t| - 1 && k == (if t[i] == '\\' then i + 1 else i) && a == st.Seen(t[i], t[k])
    requires !a.EndsName(t[k]) && a.EndsPiece(t[k])
    ensures Pieces(t[i..], st) == [Piece(a.name, a.text)] + Pieces(t[k + 1..], a.Fresh())
  {
    PiecesStep(t, i, st);
  }

  lemma ObjectCut(t: string, i: nat, k: nat, st: Scan, a: Scan, acc: Members)
    requires 1 <= i < |t| - 1 && Within(st, i) && Within(a, k + 1)
    requires k == (if t[i] == '\\' then i + 1 else i) && a == st.Seen(t[i], t[k])
    requires !a.EndsName(t[k]) && a.EndsPiece(t[k])
    ensures MembersFrom(t, i, st, acc) ==
            if Parse(a.text).Throw? || Parse(a.name).Throw? then Throw
            else MembersFrom(t, k + 1, a.Fresh(), Put(acc, StringOf(Parse(a.name).value), Parse(a.text).value))
  {
    CutStep(t, i, k, st, a);
    MembersStep(Piece(a.name, a.text), Pieces(t[k + 1..], a.Fresh()), acc, |t|);
  }

  /** One turn of the object loop, on the text from `i` on. */
  lemma ObjectStep(t: string, i: nat, k: nat, st: Scan, a: Scan, acc: Members)
    requires 1 <= i < |t| - 1 && Within(st, i) && !st.list
    requires k == (if t[i] == '\\' then i + 1 else i) && a == st.Seen(t[i], t[k])
    ensures Within(a, k + 1) && Within(a.Push([t[k]]), k + 1)
    ensures MembersFrom(t, i, st, acc) ==
            if a.EndsName(t[k]) then MembersFrom(t, k + 1, a.(naming := false), acc)
            else if !a.EndsPiece(t[k]) then MembersFrom(t, k + 1, a.Push([t[k]]), acc)
            else if Parse(a.text).Throw? || Parse(a.name).Throw? then Throw
            else MembersFrom(t, k + 1, a.Fresh(), Put(acc, StringOf(Parse(a.name).value), Parse(a.text).value))
  {
    if !a.EndsName(t[k]) && a.EndsPiece(t[k]) {
      ObjectCut(t, i, k, st, a, acc);
    } else {
      PiecesStep(t, i, st);
    }
  }

  /** One turn of the object loop. */
  method ObjectTurn(obj: JsonObject, t: string, i: nat, st: Scan) returns (st': Scan, i': nat, threw: bool)
    requires 1 <= i < |t| - 1 && Within(st, i) && !st.list
    modifies obj
    ensures threw ==> MembersFrom(t, i, st, old(obj.pairs)) == Throw
    ensures !threw ==>
              && i < i' <= |t| && Within(st', i') && !st'.list
              && MembersFrom(t, i', st', obj.pairs) == MembersFrom(t, i, st, old(obj.pairs))
    decreases |t|, 0
  {
    var k;
    st', k := Look(t, i, st);
    ObjectStep(t, i, k, st, st', obj.pairs);
    var c := t[k];
    i', threw := k + 1, false;
    if st'.EndsName(c) {
      st' := st'.(naming := false);
    } else if st'.EndsPiece(c) {
      threw := AssignMember(obj, st'.name, st'.text);
      st' := st'.Fresh();
    } else {
      st' := st'.Push([c]);
    }
  }

  /** The object loop. */
  method ParseObject(t: string) returns (r: Result<Json>)
    requires t != "" && t[0] == '{'
    ensures r == match ParseMembers(Inner(t), [], |t|)
                 case Ok(members) => Ok(Object(members))
                 case Throw => Throw
    decreases |t|, 1
  {
    var obj := new JsonObject([]);
    var st := Start(false);
    var i := 1;
    var threw;
    while i < |t| - 1
      invariant 1 <= i <= |t| && Within(st, i) && !st.list
      invariant MembersFrom(t, i, st, obj.pairs) == ParseMembers(Inner(t), [], |t|)
    {
      st, i, threw := ObjectTurn(obj, t, i, st);
      if threw {
        return Throw;
      }
    }
    assert Pieces(t[i..], st) == [Piece(st.name, st.text)] + [];
    MembersStep(Piece(st.name, st.text), [], obj.pairs, |t|);
    threw := AssignMember(obj, st.name, st.text);
    if threw {
      return Throw;
    }
    r := Ok(Object(obj.pairs));
  }

  /** Taking one element off the front of the pieces. */
  lemma ItemsStep(list: seq<Json>, p: Piece, ps: seq<Piece>, n: nat)
    requires |p.name| < n && |p.text| < n && Short(ps, n)
    ensures Short([p] + ps, n)
    ensures PrependItems(list, ParseItems([p] + ps, n)) ==
            if Parse(p.text).Throw? then Throw else PrependItems(list + [Parse(p.text).value], ParseItems(ps, n))
  {
    assert ([p] + ps)[1..] == ps;
    var v, tail := Parse(p.text), ParseItems(ps, n);
    assert v.Ok? && tail.Ok? ==> list + ([v.value] + tail.value) == (list + [v.value]) + tail.value;
  }

  lemma DropEmptyLastStep(p: Piece, ps: seq<Piece>)
    requires |ps| > 0
    ensures DropEmptyLast([p] + ps) == [p] + DropEmptyLast(ps)
  {
    assert ([p] + ps)[..|ps|] == [p] + ps[..|ps| - 1];
  }

  /** One turn of the list loop. */
  lemma ListStep(t: string, i: nat, k: nat, st: Scan, a: Scan)
    requires i < |t| - 1 && st.list && k == (if t[i] == '\\' then i + 1 else i) && a == st.Seen(t[i], t[k])
    ensures ListPieces(t[i..], st) ==
            if a.EndsPiece(t[k]) then [Piece(a.name, a.text)] + ListPieces(t[k + 1..], a.Fresh())
            else ListPieces(t[k + 1..], a.Push([t[k]]))
  {
    if a.EndsPiece(t[k]) {
      CutStep(t, i, k, st, a);
      DropEmptyLastStep(Piece(a.name, a.text), Pieces(t[k + 1..], a.Fresh()));
    } else {
      PiecesStep(t, i, st);
    }
  }

  /** What the list loop makes of the text from `i` on, after the elements in `list`. */
  function ItemsFrom(t: string, i: nat, st: Scan, list: seq<Json>): Result<seq<Json>>
    requires 1 <= i <= |t| && Within(st, i)
  {
    PrependItems(list, ParseItems(ListPieces(t[i..], st), |t|))
  }

  /** One turn of the list loop. */
  method ListTurn(list: seq<Json>, t: string, i: nat, st: Scan)
    returns (list': seq<Json>, st': Scan, i': nat, threw: bool)
    requires 1 <= i < |t| - 1 && Within(st, i) && st.list
    ensures threw ==> ItemsFrom(t, i, st, list) == Throw
    ensures !threw ==>
              && i < i' <= |t| && Within(st', i') && st'.list
              && ItemsFrom(t, i', st', list') == ItemsFrom(t, i, st, list)
    decreases |t|, 0
  {
    var k;
    st', k := Look(t, i, st);
    ListStep(t, i, k, st, st');
    var c := t[k];
    list', i', threw := list, k + 1, false;
    if st'.EndsPiece(c) {
      ItemsStep(list, Piece(st'.name, st'.text), ListPieces(t[i'..], st'.Fresh()), |t|);
      var val := ParseText(st'.text);
      if val.Throw? {
        threw := true;
        return;
      }
      list' := list + [val.value];
      st' := st'.Fresh();
    } else {
      st' := st'.Push([c]);
    }
  }

  /** The list loop. */
  method ParseList(t: string) returns (r: Result<Json>)
    requires t != "" && t[0] == '['
    ensures r == match ParseItems(InnerItems(t), |t|)
                 case Ok(items) => Ok(List(items))
                 case Throw => Throw
    decreases |t|, 1
  {
    var list: seq<Json> := [];
    var st := Start(true);
    var i := 1;
    var threw;
    ghost var whole := ParseItems(InnerItems(t), |t|);
    assert whole.Ok? ==> [] + whole.value == whole.value;
    while i < |t| - 1
      invariant 1 <= i <= |t| && Within(st, i) && st.list
      invariant ItemsFrom(t, i, st, list) == whole
    {
      list, st, i, threw := ListTurn(list, t, i, st);
      if threw {
        return Throw;
      }
    }
    assert Pieces(t[i..], st) == [Piece(st.name, st.text)] + [];
    if st.text != "" {
      ItemsStep(list, Piece(st.name, st.text), [], |t|);
      var val := ParseText(st.text);
      if val.Throw? {
        return Throw;
      }
      list := list + [val.value];
    }
    assert list + [] == list;
    r := Ok(List(list));
  }
}
