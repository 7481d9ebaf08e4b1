/** The printer: `get_repr` and `indent_json`. */
module JsonPrinter {
  import opened JsonValues
  import opened Numerals

  // ----- strings

  const HEX := "0123456789abcdef"

  /** Four lower-case hexadecimal digits, "%04x". */
  function Hex4(n: nat): (r: string)
    requires n < 0x10000
    ensures |r| == 4
  {
    [HEX[n / 4096], HEX[n / 256 % 16], HEX[n / 16 % 16], HEX[n % 16]]
  }

  /** The letters for the bytes from `\b` to `\r`. */
  const LETTERS := "btnvfr"

  /** The escapes that the printer knows by a letter. */
  function EscapeLetter(c: char): char {
    if '\U{08}' <= c <= '\r' then LETTERS[c as int - 8] else if c == '\"' || c == '\\' then c else '\0'
  }

  function EscapeChar(c: char): string {
    if EscapeLetter(c) != '\0' then ['\\', EscapeLetter(c)]
    else if 0 < c as int < 32 then "\\u" + Hex4(c as int)
    else [c]
  }

  function Escape(s: string): string {
    if s == "" then "" else EscapeChar(s[0]) + Escape(s[1..])
  }

  function Quote(s: string): string {
    "\"" + Escape(s) + "\""
  }

  // ----- indentation

  /** Every line feed gains one tab. */
  function Tabbed(s: string): string {
    if s == "" then "" else (if s[0] == '\n' then "\n\t" else [s[0]]) + Tabbed(s[1..])
  }

  /** `indent_json` leaves the last two bytes alone. */
  function Indented(s: string): string {
    if |s| < 2 then s else Tabbed(s[..|s| - 2]) + s[|s| - 2..]
  }

  // ----- values, as the code prints them: each level indents the text of the levels below

  function EnumText(code: int): string {
    match code
    case -1 => "null"
    case 0 => "false"
    case 1 => "true"
    case _ => ""
  }

  function Lines(open: string, body: string, shut: string): string {
    open + "\n" + body + "\n" + shut
  }

  function Repr(v: Json): string
    decreases v, 1
  {
    Indented(
      match v
      case Int(n) => IntText(n)
      case Str(s) => Quote(s)
      case List(items) => Lines("[", JoinReprs(items), "]")
      case Object(pairs) => Lines("{", JoinMembers(pairs), "}")
      case Enum(code) => EnumText(code)
      case Double(text) => text
      case LongLong(m) => IntText(m))
  }

  function JoinReprs(items: seq<Json>): string
    decreases items, 0
  {
    if items == [] then ""
    else Repr(items[0]) + (if |items| == 1 then "" else ",\n" + JoinReprs(items[1..]))
  }

  function MemberRepr(m: Member): string
    decreases m, 1
  {
    Indented(Quote(m.name)) + ": " + Repr(m.value)
  }

  function JoinMembers(pairs: Members): string
    decreases pairs, 0
  {
    if pairs == [] then ""
    else MemberRepr(pairs[0]) + (if |pairs| == 1 then "" else ",\n" + JoinMembers(pairs[1..]))
  }

  // ----- the same text, printed directly at its depth

  function Tabs(d: nat): string {
    seq(d, _ => '\t')
  }

  function NewLine(d: nat): string {
    "\n" + Tabs(d)
  }

  function Separator(d: nat): string {
    "," + NewLine(d)
  }

  function Bracketed(open: string, body: string, shut: string, d: nat): string {
    open + (NewLine(d + 1) + (body + (NewLine(d) + shut)))
  }

  function Pretty(v: Json, d: nat): string
    decreases v, 1
  {
    match v
    case Int(n) => IntText(n)
    case Str(s) => Quote(s)
    case List(items) => Bracketed("[", PrettyItems(items, d + 1), "]", d)
    case Object(pairs) => Bracketed("{", PrettyMembers(pairs, d + 1), "}", d)
    case Enum(code) => EnumText(code)
    case Double(text) => text
    case LongLong(m) => IntText(m)
  }

  function PrettyItems(items: seq<Json>, d: nat): string
    decreases items, 0
  {
    if items == [] then ""
    else Pretty(items[0], d) + (if |items| == 1 then "" else Separator(d) + PrettyItems(items[1..], d))
  }

  function PrettyMember(m: Member, d: nat): string
    decreases m, 1
  {
    Quote(m.name) + ": " + Pretty(m.value, d)
  }

  function PrettyMembers(pairs: Members, d: nat): string
    decreases pairs, 0
  {
    if pairs == [] then ""
    else PrettyMember(pairs[0], d) + (if |pairs| == 1 then "" else Separator(d) + PrettyMembers(pairs[1..], d))
  }

  // ----- layered indentation is printing at depth

  ghost predicate OneLine(s: string) {
    '\n' !in s
  }

  lemma {:induction false} TabbedConcat(a: string, b: string)
    ensures Tabbed(a + b) == Tabbed(a) + Tabbed(b)
  {
    if a == "" {
      assert a + b == b;
    } else {
      var head := if a[0] == '\n' then "\n\t" else [a[0]];
      TabbedConcat(a[1..], b);
      assert (a + b)[1..] == a[1..] + b;
      assert head + (Tabbed(a[1..]) + Tabbed(b)) == (head + Tabbed(a[1..])) + Tabbed(b);
    }
  }

  lemma {:induction false} TabbedOneLine(s: string)
    requires OneLine(s)
    ensures Tabbed(s) == s
  {
    if s != "" {
      TabbedOneLine(s[1..]);
      assert s == [s[0]] + s[1..];
    }
  }

  lemma IndentedOneLine(s: string)
    requires OneLine(s)
    ensures Indented(s) == s
  {
    if |s| >= 2 {
      TabbedOneLine(s[..|s| - 2]);
    }
  }

  lemma EscapeCharOneLine(c: char)
    ensures OneLine(EscapeChar(c))
  {
  }

  lemma OneLineConcat(a: string, b: string)
    requires OneLine(a) && OneLine(b)
    ensures OneLine(a + b)
  {
  }

  lemma {:induction false} EscapeOneLine(s: string)
    ensures OneLine(Escape(s))
  {
    if s != "" {
      EscapeOneLine(s[1..]);
      EscapeCharOneLine(s[0]);
      OneLineConcat(EscapeChar(s[0]), Escape(s[1..]));
    }
  }

  lemma ScalarOneLine(v: Json)
    requires !v.List? && !v.Object?
    ensures forall d: nat :: OneLine(Pretty(v, d))
  {
    match v
    case Int(n) => NatTextMeaning(if n < 0 then -n else n);
    case LongLong(n) => NatTextMeaning(if n < 0 then -n else n);
    case Str(s) => EscapeOneLine(s);
    case Double(text) =>
    case Enum(_) =>
  }

  lemma TabbedNewLine(d: nat)
    ensures Tabbed(NewLine(d)) == NewLine(d + 1)
  {
    TabbedOneLine(Tabs(d));
    assert NewLine(d)[1..] == Tabs(d);
    assert NewLine(d + 1) == "\n\t" + Tabs(d);
  }

  lemma TabbedSeparator(d: nat)
    ensures Tabbed(Separator(d)) == Separator(d + 1)
  {
    TabbedConcat(",", NewLine(d));
    TabbedOneLine(",");
    TabbedNewLine(d);
  }

  lemma TabbedBracketed(open: string, body: string, shut: string, d: nat)
    requires OneLine(open) && OneLine(shut)
    ensures Tabbed(Bracketed(open, body, shut, d)) == Bracketed(open, Tabbed(body), shut, d + 1)
  {
    TabbedConcat(open, NewLine(d + 1) + (body + (NewLine(d) + shut)));
    TabbedConcat(NewLine(d + 1), body + (NewLine(d) + shut));
    TabbedConcat(body, NewLine(d) + shut);
    TabbedConcat(NewLine(d), shut);
    TabbedNewLine(d);
    TabbedNewLine(d + 1);
    TabbedOneLine(open);
    TabbedOneLine(shut);
  }

  /** Tabbing a text printed at one depth gives the text printed one deeper. */
  lemma {:induction false} TabbedPretty(v: Json, d: nat)
    ensures Tabbed(Pretty(v, d)) == Pretty(v, d + 1)
    decreases v, 1
  {
    match v {
      case List(items) =>
        TabbedItems(items, d + 1);
        TabbedBracketed("[", PrettyItems(items, d + 1), "]", d);
      case Object(pairs) =>
        TabbedMembers(pairs, d + 1);
        TabbedBracketed("{", PrettyMembers(pairs, d + 1), "}", d);
      case _ =>
        ScalarOneLine(v);
        TabbedOneLine(Pretty(v, d));
    }
  }

  lemma {:induction false} TabbedItems(items: seq<Json>, d: nat)
    ensures Tabbed(PrettyItems(items, d)) == PrettyItems(items, d + 1)
    decreases items, 0
  {
    if items != [] {
      TabbedPretty(items[0], d);
      if |items| > 1 {
        TabbedItems(items[1..], d);
        TabbedJoined(Pretty(items[0], d), PrettyItems(items[1..], d), d);
      } else {
        TabbedConcat(Pretty(items[0], d), "");
      }
    }
  }

  lemma {:induction false} TabbedMember(m: Member, d: nat)
    ensures Tabbed(PrettyMember(m, d)) == PrettyMember(m, d + 1)
    decreases m, 1
  {
    EscapeOneLine(m.name);
    TabbedOneLine(Quote(m.name) + ": ");
    TabbedPretty(m.value, d);
    TabbedConcat(Quote(m.name) + ": ", Pretty(m.value, d));
  }

  lemma {:induction false} TabbedMembers(pairs: Members, d: nat)
    ensures Tabbed(PrettyMembers(pairs, d)) == PrettyMembers(pairs, d + 1)
    decreases pairs, 0
  {
    if pairs != [] {
      TabbedMember(pairs[0], d);
      if |pairs| > 1 {
        TabbedMembers(pairs[1..], d);
        TabbedJoined(PrettyMember(pairs[0], d), PrettyMembers(pairs[1..], d), d);
      } else {
        TabbedConcat(PrettyMember(pairs[0], d), "");
      }
    }
  }

  lemma TabbedJoined(head: string, tail: string, d: nat)
    ensures Tabbed(head + (Separator(d) + tail)) == Tabbed(head) + (Separator(d + 1) + Tabbed(tail))
  {
    TabbedConcat(head, Separator(d) + tail);
    TabbedConcat(Separator(d), tail);
    TabbedSeparator(d);
  }

  /** Re-indenting at every level of the recursion prints each line at its depth. */
  lemma {:induction false} ReprIsPretty(v: Json)
    ensures Repr(v) == Pretty(v, 0)
    decreases v, 1
  {
    match v {
      case List(items) =>
        JoinReprsIsPretty(items);
        IndentedBracketed("[", JoinReprs(items), "]");
      case Object(pairs) =>
        JoinMembersIsPretty(pairs);
        IndentedBracketed("{", JoinMembers(pairs), "}");
      case _ =>
        ScalarOneLine(v);
        assert OneLine(Pretty(v, 0));
        IndentedOneLine(Pretty(v, 0));
    }
  }

  lemma IndentedBracketed(open: string, body: string, shut: string)
    requires |open| == |shut| == 1 && OneLine(open)
    ensures Indented(Lines(open, body, shut)) == Bracketed(open, Tabbed(body), shut, 0)
  {
    var s := Lines(open, body, shut);
    assert NewLine(0) == "\n" && NewLine(1) == "\n\t";
    assert s[..|s| - 2] == open + (NewLine(0) + body);
    assert s[|s| - 2..] == NewLine(0) + shut;
    TabbedConcat(open, NewLine(0) + body);
    TabbedConcat(NewLine(0), body);
    TabbedOneLine(open);
    TabbedNewLine(0);
    assert (open + (NewLine(1) + Tabbed(body))) + (NewLine(0) + shut)
        == open + (NewLine(1) + (Tabbed(body) + (NewLine(0) + shut)));
  }

  lemma {:induction false} TabbedRepr(v: Json)
    ensures Tabbed(Repr(v)) == Pretty(v, 1)
    decreases v, 2
  {
    ReprIsPretty(v);
    TabbedPretty(v, 0);
  }

  lemma {:induction false} JoinReprsIsPretty(items: seq<Json>)
    ensures Tabbed(JoinReprs(items)) == PrettyItems(items, 1)
    decreases items, 0
  {
    if items != [] {
      var head := Repr(items[0]);
      TabbedRepr(items[0]);
      if |items| > 1 {
        JoinReprsIsPretty(items[1..]);
        assert Separator(0) == ",\n";
        TabbedJoined(head, JoinReprs(items[1..]), 0);
      } else {
        assert head + "" == head && Tabbed(head) + "" == Tabbed(head);
      }
    }
  }

  lemma QuoteIndented(s: string)
    ensures Indented(Quote(s)) == Quote(s)
  {
    EscapeOneLine(s);
    IndentedOneLine(Quote(s));
  }

  lemma {:induction false} MemberReprIsPretty(m: Member)
    ensures MemberRepr(m) == PrettyMember(m, 0)
    decreases m, 1
  {
    QuoteIndented(m.name);
    ReprIsPretty(m.value);
  }

  lemma TabbedMemberRepr(m: Member)
    ensures Tabbed(MemberRepr(m)) == PrettyMember(m, 1)
    decreases m, 2
  {
    MemberReprIsPretty(m);
    TabbedMember(m, 0);
  }

  lemma {:induction false} JoinMembersIsPretty(pairs: Members)
    ensures Tabbed(JoinMembers(pairs)) == PrettyMembers(pairs, 1)
    decreases pairs, 0
  {
    if pairs != [] {
      var head := MemberRepr(pairs[0]);
      TabbedMemberRepr(pairs[0]);
      if |pairs| > 1 {
        JoinMembersIsPretty(pairs[1..]);
        assert Separator(0) == ",\n";
        TabbedJoined(head, JoinMembers(pairs[1..]), 0);
      } else {
        assert head + "" == head && Tabbed(head) + "" == Tabbed(head);
      }
    }
  }

  // ----- the code

  method IndentJson(s: string) returns (o: string)
    ensures o == Indented(s)
  {
    o := "";
    for i := 0 to |s|
      invariant o == if i <= |s| - 2 then Tabbed(s[..i])
                     else if |s| < 2 then s[..i]
                     else Tabbed(s[..|s| - 2]) + s[|s| - 2..i]
    {
      assert s[..i + 1] == s[..i] + [s[i]];
      TabbedConcat(s[..i], [s[i]]);
      if s[i] == '\n' && i < |s| - 2 {
        o := o + "\n\t";
      } else {
        o := o + [s[i]];
      }
    }
    assert s[..|s|] == s;
    assert |s| >= 2 ==> s[|s| - 2..|s|] == s[|s| - 2..];
  }

  lemma Assoc3(o: string, a: string, b: string, c: string)
    ensures o + (a + (b + c)) == ((o + a) + b) + c
  {
  }

  method GetRepr(v: Json) returns (output: string)
    ensures output == Repr(v) == Pretty(v, 0)
    decreases v, 1
  {
    ReprIsPretty(v);
    match v {
      case Int(n) =>
        output := IntText(n);
      case Str(s) =>
        output := PrintString(s);
      case List(items) =>
        output := PrintList(items);
      case Object(pairs) =>
        output := PrintObject(pairs);
      case Enum(code) =>
        output := EnumText(code);
      case Double(text) =>
        output := text;
      case LongLong(m) =>
        output := IntText(m);
    }
    output := IndentJson(output);
  }

  /** The list branch of `get_repr`. */
  method PrintList(items: seq<Json>) returns (output: string)
    ensures output == Lines("[", JoinReprs(items), "]")
    decreases items, 0
  {
    output := "[\n";
    for i := 0 to |items|
      invariant output + JoinReprs(items[i..]) == "[\n" + JoinReprs(items)
    {
      assert items[i..][1..] == items[i + 1..];
      var item := GetRepr(items[i]);
      Assoc3(output, item, if i < |items| - 1 then ",\n" else "", JoinReprs(items[i + 1..]));
      output := output + item;
      if i < |items| - 1 {
        output := output + ",\n";
      }
    }
    assert "[" + "\n" == "[\n" && "\n" + "]" == "\n]";
    assert output + "" == output;
    output := output + "\n]";
  }

  /** The object branch of `get_repr`. */
  method PrintObject(pairs: Members) returns (output: string)
    ensures output == Lines("{", JoinMembers(pairs), "}")
    decreases pairs, 0
  {
    output := "{\n";
    for i := 0 to |pairs|
      invariant output + JoinMembers(pairs[i..]) == "{\n" + JoinMembers(pairs)
    {
      assert pairs[i..][1..] == pairs[i + 1..];
      var member := PrintMember(pairs[i]);
      Assoc3(output, member, if i < |pairs| - 1 then ",\n" else "", JoinMembers(pairs[i + 1..]));
      output := output + member;
      if i < |pairs| - 1 {
        output := output + ",\n";
      }
    }
    assert "{" + "\n" == "{\n" && "\n" + "}" == "\n}";
    assert output + "" == output;
    output := output + "\n}";
  }

  method PrintMember(m: Member) returns (output: string)
    ensures output == MemberRepr(m)
    decreases m, 1
  {
    var key := PrintString(m.name);
    output := IndentJson(key);
    output := output + ": ";
    var val := GetRepr(m.value);
    output := output + val;
  }

  method PrintChar(c: char) returns (unit: string)
    ensures unit == EscapeChar(c)
  {
    var letter := EscapeLetter(c);
    if letter != '\0' {
      unit := ['\\', letter];
    } else if 0 < c as int < 32 {
      unit := "\\u" + Hex4(c as int);
    } else {
      unit := [c];
    }
  }

  /** The string branch of `get_repr`. */
  method PrintString(s: string) returns (output: string)
    ensures output == Quote(s)
  {
    output := "\"";
    for i := 0 to |s|
      invariant output + Escape(s[i..]) == "\"" + Escape(s)
    {
      assert s[i..][1..] == s[i + 1..];
      assert output + (EscapeChar(s[i]) + Escape(s[i + 1..])) == (output + EscapeChar(s[i])) + Escape(s[i + 1..]);
      var unit := PrintChar(s[i]);
      output := output + unit;
    }
    output := output + "\"";
  }

  // ----- examples

  lemma ListText(d: nat)
    requires d == 0
    ensures Pretty(List([Int(-12), Enum(1), Enum(0), Enum(-1)]), d) == "[\n\t-12,\n\ttrue,\n\tfalse,\n\tnull\n]"
  {
  }

  /** A word that is none of the three prints as nothing. */
  lemma OtherWords(code: int)
    requires code !in {-1, 0, 1}
    ensures Repr(Enum(code)) == ""
  {
  }

  /** An element on a line, commas behind all but the last, and the three words. */
  lemma ListExample()
    ensures Repr(List([Int(-12), Enum(1), Enum(0), Enum(-1)])) == "[\n\t-12,\n\ttrue,\n\tfalse,\n\tnull\n]"
  {
    ListText(0);
    ReprIsPretty(List([Int(-12), Enum(1), Enum(0), Enum(-1)]));
  }

  lemma Framed(body: string, d: nat)
    requires d == 0
    ensures Bracketed("{", body, "}", d) == "{\n\t" + body + "\n}"
  {
    assert Tabs(d + 1) == "\t" && Tabs(d) == "";
  }

  lemma OneMember(p: Member, d: nat)
    ensures PrettyMembers([p], d) == PrettyMember(p, d)
  {
    assert PrettyMember(p, d) + "" == PrettyMember(p, d);
  }

  lemma NamedK(x: string)
    ensures Quote("k") + ": " + x == "\"k\": " + x
  {
    assert "k"[1..] == "";
  }

  lemma ObjectOfOne(v: Json, d: nat)
    requires d == 0
    ensures Pretty(Object([Member("k", v)]), d) == "{\n\t" + ("\"k\": " + Pretty(v, d + 1)) + "\n}"
  {
    Framed(PrettyMembers([Member("k", v)], d + 1), d);
    OneMember(Member("k", v), d + 1);
    NamedK(Pretty(v, d + 1));
  }

  /** A member is on a line of its own, and its value begins on that line, a tab further in. */
  lemma MemberExample(v: Json)
    ensures Repr(Object([Member("k", v)])) == "{\n\t" + ("\"k\": " + Tabbed(Repr(v))) + "\n}"
  {
    ReprIsPretty(v);
    TabbedPretty(v, 0);
    ObjectOfOne(v, 0);
    ReprIsPretty(Object([Member("k", v)]));
  }
}
