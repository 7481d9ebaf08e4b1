/** Printing a value and parsing the text gives the value back. */
module JsonRoundTrip {
  import opened Outcomes
  import opened JsonValues
  import opened Numerals
  import opened JsonPrinter
  import opened JsonParser
  import opened JsonScan

  // ----- strings: when the printer's escapes are undone

  /** The printer's escape for `c` is one the parser does not undo. */
  predicate LostControl(c: char) {
    c == '\U{0B}' || IsCoded(c)
  }

  predicate Printable(s: string) {
    forall c | c in s :: !LostControl(c)
  }

  /** One escape unit at the head of the text: undone, or turned into something else. */
  lemma UnescapeUnit(c: char, rest: string)
    ensures !LostControl(c) ==> Unescape(EscapeChar(c) + rest) == Prepend([c], Unescape(rest))
    ensures LostControl(c) ==> DiffersAt(Unescape(EscapeChar(c) + rest), c)
  {
    if EscapeLetter(c) != '\0' {
      UnescapeLetter(c, rest);
    } else if IsCoded(c) {
      UnescapeControl(c, rest);
    } else {
      UnescapeRaw(c, rest);
    }
  }

  lemma UnescapeRaw(c: char, rest: string)
    requires c != '\\'
    ensures Unescape([c] + rest) == Prepend([c], Unescape(rest))
  {
    assert ([c] + rest)[1..] == rest;
  }

  /** The result, if there is one, starts with another byte. */
  ghost predicate DiffersAt(r: Result<string>, c: char) {
    r.Ok? ==> r.value != "" && r.value[0] != c
  }

  lemma UnescapeLetter(c: char, rest: string)
    requires EscapeLetter(c) != '\0'
    ensures !LostControl(c) ==> Unescape(['\\', EscapeLetter(c)] + rest) == Prepend([c], Unescape(rest))
    ensures LostControl(c) ==> DiffersAt(Unescape(['\\', EscapeLetter(c)] + rest), c)
  {
    var t := ['\\', EscapeLetter(c)] + rest;
    assert t[1] == EscapeLetter(c) && t[2..] == rest;
    LetterMeaning(c, t);
  }

  lemma LetterMeaning(c: char, t: string)
    requires |t| > 1 && t[0] == '\\' && t[1] == EscapeLetter(c) != '\0'
    ensures EscapeMeaning(t) == Ok(if c == '\U{0B}' then "\\" else [c])
  {
    assert forall i | 0 <= i < 6 :: LETTERS[i] == ['b', 't', 'n', 'v', 'f', 'r'][i];
  }

  /** A `\u` escape of such a byte is dropped, and its digits are not. */
  lemma UnescapeDigits(x: char, y: char, rest: string)
    requires 0 <= HexDigit(x) < 2 && 0 <= HexDigit(y) < 16
    ensures Unescape(['\\', 'u', '0', '0', x, y] + rest) == Prepend("0", Unescape(['0', x, y] + rest))
  {
    var t := ['\\', 'u', '0', '0', x, y] + rest;
    assert Four(t, 2) == ['0', '0', x, y];
    ControlIsNoSurrogate(x, y);
    assert EscapeMeaning(t) == Ok("");
    var u := t[2..];
    assert u[0] == '0' && u[1..] == ['0', x, y] + rest;
    assert Unescape(u) == Prepend(['0'], Unescape(['0', x, y] + rest));
    assert Unescape(u).Ok? ==> "" + Unescape(u).value == Unescape(u).value;
  }

  lemma ControlText(c: char)
    requires 0 < c as int < 32 && EscapeLetter(c) == '\0'
    ensures var x, y := HEX[c as int / 16], HEX[c as int % 16];
            && EscapeChar(c) == ['\\', 'u', '0', '0', x, y]
            && 0 <= HexDigit(x) < 2 && 0 <= HexDigit(y) < 16
  {
  }

  lemma UnescapeControl(c: char, rest: string)
    requires 0 < c as int < 32 && EscapeLetter(c) == '\0'
    ensures DiffersAt(Unescape(EscapeChar(c) + rest), c)
  {
    ControlText(c);
    UnescapeDigits(HEX[c as int / 16], HEX[c as int % 16], rest);
  }

  lemma ControlIsNoSurrogate(x: char, y: char)
    requires 0 <= HexDigit(x) < 2 && 0 <= HexDigit(y) < 16
    ensures HexToInt(['0', '0', x, y]) / 1024 != 54
  {
    assert ['0', '0', x, y][1..] == ['0', x, y] && ['0', x, y][1..] == [x, y];
    assert [x, y][1..] == [y] && [y][1..] == "";
    assert HexToInt([y]) == HexDigit(y);
    assert HexToInt([x, y]) == HexDigit(y) * 16 + HexDigit(x);
    assert HexToInt(['0', x, y]) == HexDigit(y) * 256 + HexDigit(x) * 16;
  }

  /** A string survives printing and unescaping exactly when it has none of the lost controls. */
  lemma {:induction false} StringRoundTrip(s: string)
    ensures Unescape(Escape(s)) == Ok(s) <==> Printable(s)
  {
    if s != "" {
      StringRoundTrip(s[1..]);
      UnescapeUnit(s[0], Escape(s[1..]));
      assert s == [s[0]] + s[1..];
      if Unescape(Escape(s)) == Ok(s) && !LostControl(s[0]) {
        assert Unescape(Escape(s[1..])).value == s[1..];
      }
    }
  }

  // ----- the domain of the law

  /** From depths `o` and `l`, no comma of a string is met at depth zero. */
  predicate CommasInside(s: string, o: int, l: int) {
    s != "" ==>
      && !(s[0] == ',' && o == 0 && l == 0)
      && CommasInside(s[1..], o + ObjDelta(s[0]), l + ListDelta(s[0]))
  }

  /** Brackets in a string, opened minus closed, and its weight. */
  function StrNet(m: Mark, s: string): (n: int)
    ensures m.Comma? ==> n >= 0
  {
    if s == "" then 0 else UnitCount(m, s[0], s[0]) + StrNet(m, s[1..])
  }

  /** Brackets in all strings and names of a value, since its containers close themselves; or its weight. */
  function Net(m: Mark, v: Json): (n: int)
    ensures m.Comma? ==> n >= 0
    decreases v, 1
  {
    match v
    case Str(s) => StrNet(m, s)
    case List(items) => NetItems(m, items)
    case Object(pairs) => NetMembers(m, pairs)
    case _ => 0
  }

  function NetItems(m: Mark, items: seq<Json>): (n: int)
    ensures m.Comma? ==> n >= 0
    decreases items, 0
  {
    if items == [] then 0
    else Net(m, items[0]) + if |items| == 1 then 0 else UnitCount(m, ',', ',') + NetItems(m, items[1..])
  }

  function NetMember(m: Mark, p: Member): (n: int)
    ensures m.Comma? ==> n >= 0
    decreases p, 1
  {
    StrNet(m, p.name) + Net(m, p.value)
  }

  function NetMembers(m: Mark, pairs: Members): (n: int)
    ensures m.Comma? ==> n >= 0
    decreases pairs, 0
  {
    if pairs == [] then 0
    else NetMember(m, pairs[0]) + if |pairs| == 1 then 0 else UnitCount(m, ',', ',') + NetMembers(m, pairs[1..])
  }

  /**
   A loop that meets `v` at depths `o` and `l` sees none of its commas at depth zero. Only the list loop
   looks at the commas in strings.
   */
  predicate Hidden(v: Json, o: int, l: int, list: bool)
    decreases v, 1
  {
    match v
    case Str(s) => list ==> CommasInside(s, o, l)
    case List(items) => HiddenItems(items, o, l + 1, list)
    case Object(pairs) => HiddenMembers(pairs, o + 1, l, list)
    case _ => true
  }

  predicate HiddenItems(items: seq<Json>, o: int, l: int, list: bool)
    decreases items, 0
  {
    items != [] ==>
      && Hidden(items[0], o, l, list)
      && (|items| > 1 ==>
            var o', l' := o + Net(Brace, items[0]), l + Net(Square, items[0]);
            !(o' == 0 && l' == 0) && HiddenItems(items[1..], o', l', list))
  }

  predicate HiddenMember(p: Member, o: int, l: int, list: bool)
    decreases p, 1
  {
    && (list ==> CommasInside(p.name, o, l))
    && Hidden(p.value, o + StrNet(Brace, p.name), l + StrNet(Square, p.name), list)
  }

  predicate HiddenMembers(pairs: Members, o: int, l: int, list: bool)
    decreases pairs, 0
  {
    pairs != [] ==>
      && HiddenMember(pairs[0], o, l, list)
      && (|pairs| > 1 ==>
            var o', l' := o + NetMember(Brace, pairs[0]), l + NetMember(Square, pairs[0]);
            !(o' == 0 && l' == 0) && HiddenMembers(pairs[1..], o', l', list))
  }

  /** Within the ranges of the C++ types. Doubles are left out: their text depends on a stream. */
  ghost predicate Typed(v: Json) {
    match v
    case Int(n) => INT_MIN <= n <= INT_MAX
    case LongLong(m) => LLONG_MIN <= m <= LLONG_MAX
    case Double(_) => false
    case List(items) => forall i | 0 <= i < |items| :: Typed(items[i])
    case Object(pairs) => forall i | 0 <= i < |pairs| :: Typed(pairs[i].value)
    case _ => true
  }

  predicate Closed(v: Json) {
    Net(Brace, v) == 0 && Net(Square, v) == 0
  }

  predicate ClosedMember(p: Member) {
    NetMember(Brace, p) == 0 && NetMember(Square, p) == 0
  }

  /**
   When printing and parsing preserve a value: its containers are not empty, its strings have no lost
   controls, the brackets in the strings of every part but the last of a container close each other, those
   in a name leave the depth of braces alone, and no comma inside a part is laid bare.
   */
  predicate Exact(v: Json)
    decreases v, 1
  {
    match v
    case Str(s) => Printable(s)
    case Enum(code) => -1 <= code <= 1
    case Double(_) => false
    case List(items) => items != [] && ExactItems(items)
    case Object(pairs) => pairs != [] && ExactMembers(pairs)
    case _ => true
  }

  predicate ExactItems(items: seq<Json>)
    decreases items, 0
  {
    items != [] ==>
      && Exact(items[0])
      && Hidden(items[0], 0, 0, true)
      && (|items| > 1 ==> Closed(items[0]) && ExactItems(items[1..]))
  }

  predicate ExactMember(p: Member)
    decreases p, 1
  {
    && Printable(p.name)
    && StrNet(Brace, p.name) == 0
    && Exact(p.value)
    && Hidden(p.value, 0, StrNet(Square, p.name), false)
  }

  predicate ExactMembers(pairs: Members)
    decreases pairs, 0
  {
    pairs != [] ==>
      && ExactMember(pairs[0])
      && (|pairs| > 1 ==> ClosedMember(pairs[0]) && ExactMembers(pairs[1..]))
  }

  /** What comes back: a small long integer as an integer, the last of several members of one name. */
  function Norm(v: Json): Json
    decreases v, 1
  {
    match v
    case LongLong(m) => if INT_MIN <= m <= INT_MAX then Int(m) else v
    case List(items) => List(NormItems(items))
    case Object(pairs) => Object(PutAll([], NormMembers(pairs)))
    case _ => v
  }

  function NormItems(items: seq<Json>): (r: seq<Json>)
    decreases items, 0
  {
    if items == [] then [] else [Norm(items[0])] + NormItems(items[1..])
  }

  function NormMembers(pairs: Members): (r: Members)
    decreases pairs, 0
  {
    if pairs == [] then []
    else [Member(pairs[0].name, Norm(pairs[0].value))] + NormMembers(pairs[1..])
  }

  lemma {:induction false} NormMembersAt(pairs: Members)
    ensures |NormMembers(pairs)| == |pairs|
    ensures forall i | 0 <= i < |pairs| :: NormMembers(pairs)[i] == Member(pairs[i].name, Norm(pairs[i].value))
  {
    if pairs != [] {
      NormMembersAt(pairs[1..]);
    }
  }

  lemma {:induction false} NormItemsAt(items: seq<Json>)
    ensures |NormItems(items)| == |items|
    ensures forall i | 0 <= i < |items| :: NormItems(items)[i] == Norm(items[i])
  {
    if items != [] {
      NormItemsAt(items[1..]);
    }
  }

  lemma NormPut(acc: Members, k: string, v: Json)
    ensures NormMembers(Put(acc, k, v)) == Put(NormMembers(acc), k, Norm(v))
  {
    var l := Find(acc, k);
    NormMembersAt(acc);
    NormMembersAt(Put(acc, k, v));
    FirstIsFind(NormMembers(acc), k, l);
  }

  // ----- the text of a value has the brackets and the weight of the value

  /** The text `x` has its quotes in pairs and counts as much as `n` says. */
  ghost predicate Counts(x: string, brace: int, square: int, weight: int) {
    Whole(x) && !Odd(x) && Count(Brace, x) == brace && Count(Square, x) == square && Count(Comma, x) == weight
  }

  lemma CountsConcat(a: string, b: string)
    requires Whole(a) && !Odd(a) && Whole(b) && !Odd(b)
    ensures Counts(a + b, Count(Brace, a) + Count(Brace, b), Count(Square, a) + Count(Square, b), Weight(a) + Weight(b))
  {
    CountConcat(a, b);
  }

  ghost predicate CountsStr(x: string, s: string) {
    Counts(x, StrNet(Brace, s), StrNet(Square, s), StrNet(Comma, s))
  }

  ghost predicate CountsValue(x: string, v: Json) {
    Counts(x, Net(Brace, v), Net(Square, v), Net(Comma, v))
  }

  lemma EscapeCharCount(c: char)
    ensures Counts(EscapeChar(c), UnitCount(Brace, c, c), UnitCount(Square, c, c), UnitCount(Comma, c, c))
  {
    if EscapeLetter(c) != '\0' {
      LetterCount(c);
    } else if IsCoded(c) {
      CodedCount(c);
    } else {
      ByteCount(c);
    }
  }

  lemma LetterCount(c: char)
    requires EscapeLetter(c) != '\0'
    ensures Counts(['\\', EscapeLetter(c)], 0, 0, 0)
    ensures forall m :: UnitCount(m, c, c) == 0
  {
    OneTurn(['\\', EscapeLetter(c)]);
  }

  lemma CodedCount(c: char)
    requires IsCoded(c)
    ensures Counts("\\u" + Hex4(c as int), 0, 0, 1)
  {
    HexIsPlain(c as int);
    PlainIsUnmarked(Hex4(c as int));
    OneTurn("\\u");
    CountsConcat("\\u", Hex4(c as int));
  }

  lemma HexIsPlain(n: nat)
    requires n < 0x10000
    ensures Plain(Hex4(n))
  {
    assert forall i | 0 <= i < 16 :: !IsMark(HEX[i]);
  }

  lemma {:induction false} EscapeCount(s: string)
    ensures CountsStr(Escape(s), s)
  {
    if s != "" {
      EscapeCharCount(s[0]);
      EscapeCount(s[1..]);
      CountsConcat(EscapeChar(s[0]), Escape(s[1..]));
    }
  }

  lemma QuoteCount(s: string)
    ensures CountsStr(Quote(s), s)
  {
    ByteCount('\"');
    EscapeCount(s);
    CountConcat("\"", Escape(s));
    CountConcat("\"" + Escape(s), "\"");
  }

  lemma SeparatorCount(d: nat)
    ensures Counts(Separator(d), 0, 0, 1)
  {
    ByteCount(',');
    NewLineIsPlain(d);
    PlainIsUnmarked(NewLine(d));
    CountsConcat(",", NewLine(d));
  }

  predicate Brackets(open: string, shut: string) {
    (open == "[" && shut == "]") || (open == "{" && shut == "}")
  }

  /** Opening bracket and line break. */
  lemma OpenCount(open: string, d: nat)
    requires open == "[" || open == "{"
    ensures Counts(open + NewLine(d), ObjDelta(open[0]), ListDelta(open[0]), 0)
  {
    assert open == [open[0]];
    ByteCount(open[0]);
    NewLineIsPlain(d);
    PlainIsUnmarked(NewLine(d));
    CountsConcat(open, NewLine(d));
  }

  /** Line break and closing bracket. */
  lemma ShutCount(shut: string, d: nat)
    requires shut == "]" || shut == "}"
    ensures Counts(NewLine(d) + shut, ObjDelta(shut[0]), ListDelta(shut[0]), 0)
  {
    assert shut == [shut[0]];
    ByteCount(shut[0]);
    NewLineIsPlain(d);
    PlainIsUnmarked(NewLine(d));
    CountsConcat(NewLine(d), shut);
  }

  lemma BracketedCount(open: string, body: string, shut: string, d: nat)
    requires Brackets(open, shut) && Whole(body) && !Odd(body)
    ensures Counts(Bracketed(open, body, shut, d), Count(Brace, body), Count(Square, body), Weight(body))
  {
    var left, right := open + NewLine(d + 1), NewLine(d) + shut;
    OpenCount(open, d + 1);
    ShutCount(shut, d);
    CountsConcat(body, right);
    CountsConcat(left, body + right);
    BracketedParts(open, body, shut, d);
  }

  lemma DigitsArePlain(s: string)
    requires AllDigits(s)
    ensures Plain(s) && Plain("-" + s)
  {
    assert forall c | c in "-" + s :: c == '-' || c in s;
  }

  lemma IntTextIsPlain(n: int)
    ensures Plain(IntText(n))
  {
    NatTextMeaning(if n < 0 then -n else n);
    DigitsArePlain(NatText(if n < 0 then -n else n));
  }

  lemma ScalarIsPlain(v: Json, d: nat)
    requires !v.List? && !v.Object? && !v.Str?
    ensures Plain(Pretty(v, d))
  {
    match v
    case Int(n) => IntTextIsPlain(n);
    case LongLong(n) => IntTextIsPlain(n);
    case Double(text) =>
    case Enum(_) =>
  }

  lemma {:induction false} PrettyCount(v: Json, d: nat)
    ensures CountsValue(Pretty(v, d), v)
    decreases v, 1
  {
    match v {
      case Str(s) =>
        QuoteCount(s);
      case List(items) =>
        PrettyItemsCount(items, d + 1);
        BracketedCount("[", PrettyItems(items, d + 1), "]", d);
      case Object(pairs) =>
        PrettyMembersCount(pairs, d + 1);
        BracketedCount("{", PrettyMembers(pairs, d + 1), "}", d);
      case _ =>
        ScalarIsPlain(v, d);
        PlainIsUnmarked(Pretty(v, d));
    }
  }

  lemma JoinedCount(head: string, d: nat, rest: string)
    requires Whole(head) && !Odd(head) && Whole(rest) && !Odd(rest)
    ensures Counts(head + (Separator(d) + rest), Count(Brace, head) + Count(Brace, rest),
                   Count(Square, head) + Count(Square, rest), Weight(head) + 1 + Weight(rest))
  {
    SeparatorCount(d);
    CountsConcat(Separator(d), rest);
    CountsConcat(head, Separator(d) + rest);
  }

  lemma {:induction false} PrettyItemsCount(items: seq<Json>, d: nat)
    ensures Counts(PrettyItems(items, d), NetItems(Brace, items), NetItems(Square, items), NetItems(Comma, items))
    decreases items, 0
  {
    if items != [] {
      var head := Pretty(items[0], d);
      PrettyCount(items[0], d);
      if |items| == 1 {
        assert head + "" == head;
      } else {
        PrettyItemsCount(items[1..], d);
        JoinedCount(head, d, PrettyItems(items[1..], d));
      }
    }
  }

  lemma ColonCount()
    ensures Counts(": ", 0, 0, 0)
  {
    ByteCount(':');
    PlainIsUnmarked(" ");
    CountsConcat(":", " ");
    assert ":" + " " == ": ";
  }

  lemma NameCount(name: string)
    ensures CountsStr(Quote(name) + ": ", name)
  {
    QuoteCount(name);
    ColonCount();
    CountsConcat(Quote(name), ": ");
  }

  lemma {:induction false} PrettyMemberCount(p: Member, d: nat)
    ensures Counts(PrettyMember(p, d), NetMember(Brace, p), NetMember(Square, p), NetMember(Comma, p))
    decreases p, 1
  {
    NameCount(p.name);
    PrettyCount(p.value, d);
    CountsConcat(Quote(p.name) + ": ", Pretty(p.value, d));
  }

  lemma {:induction false} PrettyMembersCount(pairs: Members, d: nat)
    ensures Counts(PrettyMembers(pairs, d),
                   NetMembers(Brace, pairs), NetMembers(Square, pairs), NetMembers(Comma, pairs))
    decreases pairs, 0
  {
    if pairs != [] {
      var head := PrettyMember(pairs[0], d);
      PrettyMemberCount(pairs[0], d);
      if |pairs| == 1 {
        assert head + "" == head;
      } else {
        PrettyMembersCount(pairs[1..], d);
        JoinedCount(head, d, PrettyMembers(pairs[1..], d));
      }
    }
  }

  // ----- the text of a value is cut exactly when a comma is laid bare

  lemma QuietEscapeChar(c: char, list: bool, naming: bool, o: int, l: int)
    ensures Quiet(EscapeChar(c), list, naming, o, l, true) <==> (list ==> !(c == ',' && o == 0 && l == 0))
  {
    if EscapeLetter(c) != '\0' {
      QuietLetter(c, list, naming, o, l);
    } else if IsCoded(c) {
      QuietCoded(c, list, naming, o, l);
    } else {
      QuietRaw(c, list, naming, o, l);
    }
  }

  lemma QuietLetter(c: char, list: bool, naming: bool, o: int, l: int)
    requires EscapeLetter(c) != '\0'
    ensures c != ',' && Quiet(['\\', EscapeLetter(c)], list, naming, o, l, true)
  {
    QuietEscape(EscapeLetter(c), list, naming, o, l);
  }

  lemma QuietRaw(c: char, list: bool, naming: bool, o: int, l: int)
    requires c != '\\' && c != '\"'
    ensures Quiet([c], list, naming, o, l, true) <==> (list ==> !(c == ',' && o == 0 && l == 0))
  {
    ByteQuiet(c, list, naming, o, l, true);
  }

  /** Two texts, the first one without brackets. */
  lemma QuietAfterUnmarked(a: string, x: string, list: bool, naming: bool, o: int, l: int, quoted: bool)
    requires Whole(a) && !Odd(a) && Count(Brace, a) == 0 && Count(Square, a) == 0
    requires Quiet(a, list, naming, o, l, quoted) && Quiet(x, list, naming, o, l, quoted)
    ensures Quiet(a + x, list, naming, o, l, quoted)
  {
    QuietConcat(a, x, list, naming, o, l, quoted, o, l, quoted);
  }

  lemma QuietCoded(c: char, list: bool, naming: bool, o: int, l: int)
    requires IsCoded(c)
    ensures Quiet("\\u" + Hex4(c as int), list, naming, o, l, true)
  {
    OneTurn(['\\', 'u']);
    QuietEscape('u', list, naming, o, l);
    HexIsPlain(c as int);
    PlainQuiet(Hex4(c as int), list, naming, o, l, true);
    QuietAfterUnmarked(['\\', 'u'], Hex4(c as int), list, naming, o, l, true);
  }

  lemma QuietEscape(c: char, list: bool, naming: bool, o: int, l: int)
    requires !IsMark(c) || c == '\"' || c == '\\'
    ensures Quiet(['\\', c], list, naming, o, l, true)
  {
    var e := ['\\', c];
    assert Skip(e) == 1 && Rest(e) == "";
  }

  /** Any text that counts as the byte `c` does, and what follows it. */
  lemma QuietThen(e: string, c: char, rest: string, list: bool, naming: bool, o: int, l: int)
    requires Counts(e, ObjDelta(c), ListDelta(c), UnitCount(Comma, c, c))
    ensures Quiet(e + rest, list, naming, o, l, true) <==>
            && Quiet(e, list, naming, o, l, true)
            && Quiet(rest, list, naming, o + ObjDelta(c), l + ListDelta(c), true)
  {
    QuietConcat(e, rest, list, naming, o, l, true, o + ObjDelta(c), l + ListDelta(c), true);
  }

  lemma QuietUnit(c: char, rest: string, list: bool, naming: bool, o: int, l: int)
    ensures Quiet(EscapeChar(c) + rest, list, naming, o, l, true) <==>
            && (list ==> !(c == ',' && o == 0 && l == 0))
            && Quiet(rest, list, naming, o + ObjDelta(c), l + ListDelta(c), true)
  {
    EscapeCharCount(c);
    QuietEscapeChar(c, list, naming, o, l);
    QuietThen(EscapeChar(c), c, rest, list, naming, o, l);
  }

  lemma CommasStep(c: char, t: string, o: int, l: int)
    ensures CommasInside([c] + t, o, l) <==>
            !(c == ',' && o == 0 && l == 0) && CommasInside(t, o + ObjDelta(c), l + ListDelta(c))
  {
    assert ([c] + t)[1..] == t;
  }

  lemma EscapeStep(c: char, t: string)
    ensures Escape([c] + t) == EscapeChar(c) + Escape(t)
  {
    assert ([c] + t)[1..] == t;
  }

  lemma QuietCharThen(c: char, t: string, list: bool, naming: bool, o: int, l: int)
    requires Quiet(Escape(t), list, naming, o + ObjDelta(c), l + ListDelta(c), true)
        <==> (list ==> CommasInside(t, o + ObjDelta(c), l + ListDelta(c)))
    ensures Quiet(Escape([c] + t), list, naming, o, l, true) <==> (list ==> CommasInside([c] + t, o, l))
  {
    QuietUnit(c, Escape(t), list, naming, o, l);
    CommasStep(c, t, o, l);
    EscapeStep(c, t);
  }

  lemma QuietNothing(list: bool, naming: bool, o: int, l: int)
    ensures Quiet(Escape(""), list, naming, o, l, true) && CommasInside("", o, l)
  {
  }

  lemma {:induction false} QuietBody(s: string, list: bool, naming: bool, o: int, l: int)
    ensures Quiet(Escape(s), list, naming, o, l, true) <==> (list ==> CommasInside(s, o, l))
  {
    if s == "" {
      QuietNothing(list, naming, o, l);
    } else {
      QuietBody(s[1..], list, naming, o + ObjDelta(s[0]), l + ListDelta(s[0]));
      QuietCharThen(s[0], s[1..], list, naming, o, l);
      assert s == [s[0]] + s[1..];
    }
  }

  lemma QuietThenQuote(x: string, list: bool, naming: bool, o: int, l: int)
    requires Whole(x) && !Odd(x)
    ensures Quiet(x + "\"", list, naming, o, l, true) <==> Quiet(x, list, naming, o, l, true)
  {
    ByteQuiet('\"', list, naming, o + Count(Brace, x), l + Count(Square, x), true);
    QuietConcat(x, "\"", list, naming, o, l, true, o + Count(Brace, x), l + Count(Square, x), true);
  }

  lemma QuietQuoted(x: string, list: bool, naming: bool, o: int, l: int)
    requires Whole(x) && !Odd(x)
    ensures Quiet("\"" + x + "\"", list, naming, o, l, false) <==> Quiet(x, list, naming, o, l, true)
  {
    ByteCount('\"');
    ByteQuiet('\"', list, naming, o, l, false);
    QuietThenQuote(x, list, naming, o, l);
    QuietConcat("\"", x + "\"", list, naming, o, l, false, o, l, true);
    assert "\"" + x + "\"" == "\"" + (x + "\"");
  }

  lemma QuietQuote(s: string, list: bool, naming: bool, o: int, l: int)
    ensures Quiet(Quote(s), list, naming, o, l, false) <==> (list ==> CommasInside(s, o, l))
  {
    EscapeCount(s);
    QuietBody(s, list, naming, o, l);
    QuietQuoted(Escape(s), list, naming, o, l);
  }

  lemma QuietSeparator(d: nat, list: bool, o: int, l: int)
    ensures Quiet(Separator(d), list, false, o, l, false) <==> !(o == 0 && l == 0)
  {
    ByteCount(',');
    ByteQuiet(',', list, false, o, l, false);
    NewLineIsPlain(d);
    PlainQuiet(NewLine(d), list, false, o, l, false);
    QuietConcat(",", NewLine(d), list, false, o, l, false, o, l, false);
  }

  lemma QuietShut(shut: string, d: nat, list: bool, o: int, l: int)
    requires shut == "]" || shut == "}"
    ensures Quiet(NewLine(d) + shut, list, false, o, l, false)
  {
    assert shut == [shut[0]];
    NewLineIsPlain(d);
    PlainIsUnmarked(NewLine(d));
    PlainQuiet(NewLine(d), list, false, o, l, false);
    ByteQuiet(shut[0], list, false, o, l, false);
    QuietConcat(NewLine(d), shut, list, false, o, l, false, o, l, false);
  }

  lemma QuietOpen(open: string, d: nat, list: bool, o: int, l: int)
    requires open == "[" || open == "{"
    ensures Quiet(open + NewLine(d), list, false, o, l, false)
  {
    assert open == [open[0]];
    ByteCount(open[0]);
    ByteQuiet(open[0], list, false, o, l, false);
    NewLineIsPlain(d);
    PlainQuiet(NewLine(d), list, false, o + ObjDelta(open[0]), l + ListDelta(open[0]), false);
    QuietConcat(open, NewLine(d), list, false, o, l, false, o + ObjDelta(open[0]), l + ListDelta(open[0]), false);
  }

  lemma QuietBodyShut(body: string, shut: string, d: nat, list: bool, o: int, l: int)
    requires (shut == "]" || shut == "}") && Whole(body) && !Odd(body)
    ensures Quiet(body + (NewLine(d) + shut), list, false, o, l, false) <==> Quiet(body, list, false, o, l, false)
  {
    QuietShut(shut, d, list, o + Count(Brace, body), l + Count(Square, body));
    QuietConcat(body, NewLine(d) + shut, list, false, o, l, false,
                o + Count(Brace, body), l + Count(Square, body), false);
  }

  lemma QuietBracketed(open: string, body: string, shut: string, d: nat, list: bool, o: int, l: int)
    requires Brackets(open, shut) && Whole(body) && !Odd(body)
    ensures Quiet(Bracketed(open, body, shut, d), list, false, o, l, false) <==>
            Quiet(body, list, false, o + ObjDelta(open[0]), l + ListDelta(open[0]), false)
  {
    var left, tail := open + NewLine(d + 1), body + (NewLine(d) + shut);
    OpenCount(open, d + 1);
    QuietOpen(open, d + 1, list, o, l);
    QuietBodyShut(body, shut, d, list, o + ObjDelta(open[0]), l + ListDelta(open[0]));
    QuietTwo(left, tail, ObjDelta(open[0]), ListDelta(open[0]), list, o, l);
    BracketedParts(open, body, shut, d);
  }

  lemma BracketedParts(open: string, body: string, shut: string, d: nat)
    ensures Bracketed(open, body, shut, d) == (open + NewLine(d + 1)) + (body + (NewLine(d) + shut))
  {
  }

  lemma {:induction false} QuietPretty(v: Json, d: nat, list: bool, o: int, l: int)
    ensures Quiet(Pretty(v, d), list, false, o, l, false) <==> Hidden(v, o, l, list)
    decreases v, 1
  {
    match v {
      case Str(s) =>
        QuietQuote(s, list, false, o, l);
      case List(items) =>
        PrettyItemsCount(items, d + 1);
        QuietItems(items, d + 1, list, o, l + 1);
        QuietBracketed("[", PrettyItems(items, d + 1), "]", d, list, o, l);
      case Object(pairs) =>
        PrettyMembersCount(pairs, d + 1);
        QuietMembers(pairs, d + 1, list, o + 1, l);
        QuietBracketed("{", PrettyMembers(pairs, d + 1), "}", d, list, o, l);
      case _ =>
        ScalarIsPlain(v, d);
        PlainQuiet(Pretty(v, d), list, false, o, l, false);
    }
  }

  /** A part, the separator, the parts after it. */
  lemma QuietJoined(head: string, d: nat, rest: string, list: bool, o: int, l: int, o': int, l': int)
    requires Whole(head) && !Odd(head) && o' == o + Count(Brace, head) && l' == l + Count(Square, head)
    ensures Quiet(head + (Separator(d) + rest), list, false, o, l, false) <==>
            && Quiet(head, list, false, o, l, false)
            && !(o' == 0 && l' == 0)
            && Quiet(rest, list, false, o', l', false)
  {
    SeparatorCount(d);
    QuietSeparator(d, list, o', l');
    QuietConcat(Separator(d), rest, list, false, o', l', false, o', l', false);
    QuietConcat(head, Separator(d) + rest, list, false, o, l, false, o', l', false);
  }

  lemma QuietOneItem(v: Json, d: nat, list: bool, o: int, l: int)
    requires Quiet(Pretty(v, d), list, false, o, l, false) <==> Hidden(v, o, l, list)
    ensures Quiet(PrettyItems([v], d), list, false, o, l, false) <==> HiddenItems([v], o, l, list)
  {
    assert Pretty(v, d) + "" == Pretty(v, d);
  }

  lemma ManyItemsText(v: Json, more: seq<Json>, d: nat)
    requires more != []
    ensures PrettyItems([v] + more, d) == Pretty(v, d) + (Separator(d) + PrettyItems(more, d))
  {
    assert ([v] + more)[1..] == more;
  }

  lemma ManyItemsHidden(v: Json, more: seq<Json>, list: bool, o: int, l: int, o': int, l': int)
    requires more != [] && o' == o + Net(Brace, v) && l' == l + Net(Square, v)
    ensures HiddenItems([v] + more, o, l, list) <==>
            Hidden(v, o, l, list) && !(o' == 0 && l' == 0) && HiddenItems(more, o', l', list)
  {
    assert ([v] + more)[1..] == more;
  }

  lemma QuietManyItems(v: Json, more: seq<Json>, d: nat, list: bool, o: int, l: int, o': int, l': int)
    requires more != [] && o' == o + Net(Brace, v) && l' == l + Net(Square, v)
    requires Quiet(Pretty(v, d), list, false, o, l, false) <==> Hidden(v, o, l, list)
    requires Quiet(PrettyItems(more, d), list, false, o', l', false) <==> HiddenItems(more, o', l', list)
    ensures Quiet(PrettyItems([v] + more, d), list, false, o, l, false) <==> HiddenItems([v] + more, o, l, list)
  {
    PrettyCount(v, d);
    QuietJoined(Pretty(v, d), d, PrettyItems(more, d), list, o, l, o', l');
    ManyItemsText(v, more, d);
    ManyItemsHidden(v, more, list, o, l, o', l');
  }

  lemma {:induction false} QuietItems(items: seq<Json>, d: nat, list: bool, o: int, l: int)
    ensures Quiet(PrettyItems(items, d), list, false, o, l, false) <==> HiddenItems(items, o, l, list)
    decreases items, 0
  {
    if items != [] {
      var v, more := items[0], items[1..];
      QuietPretty(v, d, list, o, l);
      if more == [] {
        assert items == [v];
        QuietOneItem(v, d, list, o, l);
      } else {
        assert items == [v] + more;
        var o', l' := o + Net(Brace, v), l + Net(Square, v);
        QuietItems(more, d, list, o', l');
        QuietManyItems(v, more, d, list, o, l, o', l');
      }
    }
  }

  lemma QuietColon(list: bool, o: int, l: int)
    ensures Quiet(": ", list, false, o, l, false)
  {
    ByteQuiet(':', list, false, o, l, false);
    ByteQuiet(' ', list, false, o, l, false);
    ByteCount(':');
    QuietConcat(":", " ", list, false, o, l, false, o, l, false);
    assert ":" + " " == ": ";
  }

  lemma QuietName(name: string, list: bool, o: int, l: int)
    ensures Quiet(Quote(name) + ": ", list, false, o, l, false) <==> (list ==> CommasInside(name, o, l))
  {
    QuoteCount(name);
    QuietQuote(name, list, false, o, l);
    QuietColon(list, o + StrNet(Brace, name), l + StrNet(Square, name));
    QuietConcat(Quote(name), ": ", list, false, o, l, false, o + StrNet(Brace, name), l + StrNet(Square, name), false);
  }

  /** Two texts after each other, the first one counting `oa` and `la`. */
  lemma QuietTwo(a: string, b: string, oa: int, la: int, list: bool, o: int, l: int)
    requires Whole(a) && !Odd(a) && Count(Brace, a) == oa && Count(Square, a) == la
    ensures Quiet(a + b, list, false, o, l, false) <==>
            Quiet(a, list, false, o, l, false) && Quiet(b, list, false, o + oa, l + la, false)
  {
    QuietConcat(a, b, list, false, o, l, false, o + oa, l + la, false);
  }

  /** A name and any text `y` for the value. */
  lemma QuietNamed(name: string, y: string, list: bool, o: int, l: int)
    ensures Quiet(Quote(name) + ": " + y, list, false, o, l, false) <==>
            && (list ==> CommasInside(name, o, l))
            && Quiet(y, list, false, o + StrNet(Brace, name), l + StrNet(Square, name), false)
  {
    NameCount(name);
    QuietName(name, list, o, l);
    QuietTwo(Quote(name) + ": ", y, StrNet(Brace, name), StrNet(Square, name), list, o, l);
  }

  lemma {:induction false} QuietMember(p: Member, d: nat, list: bool, o: int, l: int)
    ensures Quiet(PrettyMember(p, d), list, false, o, l, false) <==> HiddenMember(p, o, l, list)
    decreases p, 1
  {
    QuietPretty(p.value, d, list, o + StrNet(Brace, p.name), l + StrNet(Square, p.name));
    QuietNamed(p.name, Pretty(p.value, d), list, o, l);
  }

  lemma QuietOneMember(p: Member, d: nat, list: bool, o: int, l: int)
    requires Quiet(PrettyMember(p, d), list, false, o, l, false) <==> HiddenMember(p, o, l, list)
    ensures Quiet(PrettyMembers([p], d), list, false, o, l, false) <==> HiddenMembers([p], o, l, list)
  {
    assert PrettyMember(p, d) + "" == PrettyMember(p, d);
  }

  lemma ManyMembersText(p: Member, more: Members, d: nat)
    requires more != []
    ensures PrettyMembers([p] + more, d) == PrettyMember(p, d) + (Separator(d) + PrettyMembers(more, d))
  {
    assert ([p] + more)[1..] == more;
  }

  lemma ManyMembersHidden(p: Member, more: Members, list: bool, o: int, l: int, o': int, l': int)
    requires more != [] && o' == o + NetMember(Brace, p) && l' == l + NetMember(Square, p)
    ensures HiddenMembers([p] + more, o, l, list) <==>
            HiddenMember(p, o, l, list) && !(o' == 0 && l' == 0) && HiddenMembers(more, o', l', list)
  {
    assert ([p] + more)[1..] == more;
  }

  lemma QuietManyMembers(p: Member, more: Members, d: nat, list: bool, o: int, l: int, o': int, l': int)
    requires more != [] && o' == o + NetMember(Brace, p) && l' == l + NetMember(Square, p)
    requires Quiet(PrettyMember(p, d), list, false, o, l, false) <==> HiddenMember(p, o, l, list)
    requires Quiet(PrettyMembers(more, d), list, false, o', l', false) <==> HiddenMembers(more, o', l', list)
    ensures Quiet(PrettyMembers([p] + more, d), list, false, o, l, false) <==> HiddenMembers([p] + more, o, l, list)
  {
    PrettyMemberCount(p, d);
    QuietJoined(PrettyMember(p, d), d, PrettyMembers(more, d), list, o, l, o', l');
    ManyMembersText(p, more, d);
    ManyMembersHidden(p, more, list, o, l, o', l');
  }

  lemma {:induction false} QuietMembers(pairs: Members, d: nat, list: bool, o: int, l: int)
    ensures Quiet(PrettyMembers(pairs, d), list, false, o, l, false) <==> HiddenMembers(pairs, o, l, list)
    decreases pairs, 0
  {
    if pairs != [] {
      var p, more := pairs[0], pairs[1..];
      QuietMember(p, d, list, o, l);
      if more == [] {
        assert pairs == [p];
        QuietOneMember(p, d, list, o, l);
      } else {
        assert pairs == [p] + more;
        var o', l' := o + NetMember(Brace, p), l + NetMember(Square, p);
        QuietMembers(more, d, list, o', l');
        QuietManyMembers(p, more, d, list, o, l, o', l');
      }
    }
  }

  // ----- scalars

  /** A decimal numeral is of integer form and means its number. */
  lemma IntTextBack(n: int)
    ensures NumberFormOf(IntText(n)) == Integer && IntegerValue(IntText(n)) == n
    ensures IntText(n) != "" && (IsDigit(IntText(n)[0]) || IntText(n)[0] == '-')
    ensures IsDigit(IntText(n)[|IntText(n)| - 1])
  {
    var k := if n < 0 then -n else n;
    NatTextMeaning(k);
    DigitRunAll(NatText(k));
    if n < 0 {
      assert IntText(n)[1..] == NatText(k);
    }
  }

  lemma WordsAreNoNumbers()
    ensures NumberFormOf("null") == NumberFormOf("true") == NumberFormOf("false") == NotNumber
  {
    assert DigitRun("null") == DigitRun("true") == DigitRun("false") == 0;
  }

  /** Neither end of a printed value is white space. */
  lemma PrettyEnds(v: Json, d: nat)
    requires v.Enum? ==> -1 <= v.code <= 1
    requires !v.Double?
    ensures var t := Pretty(v, d); t != "" && !IsSpace(t[0]) && !IsSpace(t[|t| - 1])
  {
    match v
    case Int(n) => IntTextBack(n);
    case LongLong(n) => IntTextBack(n);
    case _ =>
  }

  lemma ScalarBack(v: Json, d: nat)
    requires Typed(v) && Exact(v) && !v.Str? && !v.List? && !v.Object?
    ensures ParseScalar(Pretty(v, d)) == Ok(Norm(v)) && Pretty(v, d)[0] !in {'{', '[', '\"'}
  {
    match v
    case Int(n) => IntTextBack(n);
    case LongLong(n) => IntTextBack(n);
    case Enum(_) => WordsAreNoNumbers();
  }

  // ----- pieces

  lemma ShortTail(p: Piece, ps: seq<Piece>, n: nat)
    requires Short([p] + ps, n)
    ensures |p.name| < n && |p.text| < n && Short(ps, n)
  {
    assert ([p] + ps)[0] == p;
    forall i | 0 <= i < |ps| ensures |ps[i].name| < n && |ps[i].text| < n {
      assert ([p] + ps)[i + 1] == ps[i];
    }
  }

  /** White space before the closing byte goes into the last piece. */
  lemma LastPiece(e: nat, shut: string, st: Scan)
    requires |shut| == 1 && !st.naming
    ensures Pieces(NewLine(e) + shut, st) == [Piece(st.name, st.text + NewLine(e))]
  {
    NewLineIsPlain(e);
    PlainReads(NewLine(e), shut, st);
  }

  /** The separator of the outermost container ends a piece. */
  lemma CutPiece(d: nat, rest: string, st: Scan)
    requires rest != "" && st.objs == 0 && st.lists == 0 && !st.quoted && !st.naming
    ensures Pieces(Separator(d) + rest, st) == [Piece(st.name, st.text)] + Pieces(rest, st.Fresh().Push(NewLine(d)))
  {
    assert Separator(d) + rest == [','] + (NewLine(d) + rest);
    assert ([','] + (NewLine(d) + rest))[1..] == NewLine(d) + rest;
    assert st.Seen(',', ',') == st;
    NewLineIsPlain(d);
    PlainReads(NewLine(d), rest, st.Fresh());
  }

  /** The loop after a stretch of text without a cut. */
  ghost function Past(x: string, o: int, l: int, st: Scan): Scan {
    st.Push(x).(objs := st.objs + o, lists := st.lists + l)
  }

  lemma AfterIsPast(x: string, st: Scan)
    requires !Odd(x)
    ensures After(st, x) == Past(x, Count(Brace, x), Count(Square, x), st)
  {
  }

  lemma StretchRead(x: string, o: int, l: int, y: string, st: Scan)
    requires Whole(x) && !Odd(x) && QuietFrom(x, st) && y != "" && o == Count(Brace, x) && l == Count(Square, x)
    ensures Pieces(x + y, st) == Pieces(y, Past(x, o, l, st))
  {
    AfterIsPast(x, st);
    QuietReads(x, y, st);
  }

  /** The list loop at the start of an element, with white space in the buffer. */
  ghost predicate AtElement(st: Scan) {
    st.list && !st.naming && st.objs == 0 && st.lists == 0 && !st.quoted && AllSpace(st.text)
  }

  /** The list loop after an element. */
  ghost function PastElement(v: Json, d: nat, st: Scan): Scan {
    Scan(true, false, st.name, st.text + Pretty(v, d), Net(Brace, v), Net(Square, v), false)
  }

  lemma ElementRead(v: Json, d: nat, y: string, st: Scan)
    requires AtElement(st) && Hidden(v, 0, 0, true) && y != ""
    ensures Pieces(Pretty(v, d) + y, st) == Pieces(y, PastElement(v, d, st))
  {
    ValueRead(v, d, y, st);
  }

  /** The object loop at the start of a name, with white space in the buffer. */
  ghost predicate AtName(st: Scan) {
    !st.list && st.naming && st.objs == 0 && st.lists == 0 && !st.quoted && AllSpace(st.name) && st.text == ""
  }

  /** The object loop after a name. */
  ghost function PastName(name: string, st: Scan): Scan {
    Scan(false, true, st.name + Quote(name), "", StrNet(Brace, name), StrNet(Square, name), false)
  }

  lemma NameRead(name: string, y: string, st: Scan)
    requires AtName(st) && y != ""
    ensures Pieces(Quote(name) + y, st) == Pieces(y, PastName(name, st))
  {
    QuietQuote(name, false, true, 0, 0);
    QuoteCount(name);
    QuietReads(Quote(name), y, st);
  }

  /** The object loop before a value. */
  ghost function BeforeValue(name: string, st: Scan): Scan {
    Scan(false, false, st.name + Quote(name), " ", 0, StrNet(Square, name), false)
  }

  /** The colon after a name whose braces close each other. */
  lemma ColonRead(name: string, y: string, st: Scan)
    requires StrNet(Brace, name) == 0 && y != ""
    ensures Pieces([':'] + (" " + y), PastName(name, st)) == Pieces(y, BeforeValue(name, st))
  {
    var a := PastName(name, st);
    assert ([':'] + (" " + y))[1..] == " " + y;
    assert a.Seen(':', ':') == a && a.EndsName(':');
    PlainReads(" ", y, a.(naming := false));
    assert "" + " " == " ";
  }

  lemma NameAndColonRead(name: string, y: string, st: Scan)
    requires AtName(st) && StrNet(Brace, name) == 0 && y != ""
    ensures Pieces(Quote(name) + ([':'] + (" " + y)), st) == Pieces(y, BeforeValue(name, st))
  {
    NameRead(name, [':'] + (" " + y), st);
    ColonRead(name, y, st);
  }

  /** The object loop after a member. */
  ghost function PastMember(p: Member, d: nat, st: Scan): Scan {
    Scan(false, false, st.name + Quote(p.name), " " + Pretty(p.value, d),
         NetMember(Brace, p), NetMember(Square, p), false)
  }

  lemma ValueRead(v: Json, d: nat, y: string, st: Scan)
    requires !st.naming && !st.quoted && Hidden(v, st.objs, st.lists, st.list) && y != ""
    ensures Pieces(Pretty(v, d) + y, st) == Pieces(y, Past(Pretty(v, d), Net(Brace, v), Net(Square, v), st))
  {
    QuietPretty(v, d, st.list, st.objs, st.lists);
    PrettyCount(v, d);
    StretchRead(Pretty(v, d), Net(Brace, v), Net(Square, v), y, st);
  }

  lemma MemberText(p: Member, d: nat, y: string)
    ensures PrettyMember(p, d) + y == Quote(p.name) + ([':'] + (" " + (Pretty(p.value, d) + y)))
  {
    var q, v := Quote(p.name), Pretty(p.value, d);
    assert q + ": " + v + y == q + ([':'] + (" " + (v + y)));
  }

  lemma PastValue(p: Member, d: nat, st: Scan)
    requires StrNet(Brace, p.name) == 0
    ensures Past(Pretty(p.value, d), Net(Brace, p.value), Net(Square, p.value), BeforeValue(p.name, st))
         == PastMember(p, d, st)
  {
  }

  /** A name, the colon and a value at the outermost level of the object loop. */
  lemma MemberRead(p: Member, d: nat, y: string, st: Scan)
    requires AtName(st) && StrNet(Brace, p.name) == 0 && Hidden(p.value, 0, StrNet(Square, p.name), false) && y != ""
    ensures Pieces(PrettyMember(p, d) + y, st) == Pieces(y, PastMember(p, d, st))
  {
    MemberText(p, d, y);
    NameAndColonRead(p.name, Pretty(p.value, d) + y, st);
    ValueRead(p.value, d, y, BeforeValue(p.name, st));
    PastValue(p, d, st);
  }

  // ----- containers

  lemma StringBack(s: string, pre: string, post: string)
    requires Printable(s) && AllSpace(pre) && AllSpace(post)
    ensures Parse(pre + Quote(s) + post) == Ok(Str(s))
  {
    StripParts(pre, Quote(s), post);
    assert Quote(s)[1..|Quote(s)| - 1] == Escape(s);
    StringRoundTrip(s);
  }

  /** Printing and parsing gives the value back, at any depth and between any white space. */
  lemma {:induction false} RoundTripBetween(v: Json, d: nat, pre: string, post: string)
    requires Typed(v) && Exact(v) && AllSpace(pre) && AllSpace(post)
    ensures Parse(pre + Pretty(v, d) + post) == Ok(Norm(v))
    decreases v, 1
  {
    var t := Pretty(v, d);
    PrettyEnds(v, d);
    StripParts(pre, t, post);
    match v {
      case Str(s) =>
        StringBack(s, pre, post);
      case List(items) =>
        ListBack(items, d);
      case Object(pairs) =>
        ObjectBack(pairs, d);
      case _ =>
        ScalarBack(v, d);
    }
  }

  /** What follows the opening bracket. */
  lemma InnerText(open: string, body: string, shut: string, d: nat, list: bool)
    requires |open| == |shut| == 1
    requires list == (open == "[")
    ensures Inner(Bracketed(open, body, shut, d))
         == Pieces(body + (NewLine(d) + shut), Start(list).Push(NewLine(d + 1)))
  {
    NewLineIsPlain(d + 1);
    assert Bracketed(open, body, shut, d)[1..] == NewLine(d + 1) + (body + (NewLine(d) + shut));
    PlainReads(NewLine(d + 1), body + (NewLine(d) + shut), Start(list));
  }

  lemma {:induction false} ListBack(items: seq<Json>, d: nat)
    requires items != [] && Typed(List(items)) && ExactItems(items)
    ensures var t := Pretty(List(items), d);
            ParseItems(InnerItems(t), |t|) == Ok(NormItems(items))
    decreases items, 1
  {
    InnerText("[", PrettyItems(items, d + 1), "]", d, true);
    NewLineIsPlain(d + 1);
    ItemsBack(items, d + 1, d, Start(true).Push(NewLine(d + 1)), |Pretty(List(items), d)|);
  }

  lemma {:induction false} ObjectBack(pairs: Members, d: nat)
    requires pairs != [] && Typed(Object(pairs)) && ExactMembers(pairs)
    ensures var t := Pretty(Object(pairs), d);
            ParseMembers(Inner(t), [], |t|) == Ok(PutAll([], NormMembers(pairs)))
    decreases pairs, 1
  {
    InnerText("{", PrettyMembers(pairs, d + 1), "}", d, false);
    NewLineIsPlain(d + 1);
    MembersBack(pairs, d + 1, d, Start(false).Push(NewLine(d + 1)), [], |Pretty(Object(pairs), d)|);
  }

  lemma {:induction false} ItemsBack(items: seq<Json>, d: nat, e: nat, st: Scan, n: nat)
    requires items != [] && Typed(List(items)) && ExactItems(items) && AtElement(st)
    requires Short(ListPieces(PrettyItems(items, d) + (NewLine(e) + "]"), st), n)
    ensures ParseItems(ListPieces(PrettyItems(items, d) + (NewLine(e) + "]"), st), n) == Ok(NormItems(items))
    decreases items, 0
  {
    var head, a := Pretty(items[0], d), PastElement(items[0], d, st);
    if |items| == 1 {
      LastElement(items, d, e, st);
      var p := Piece(st.name, st.text + head + NewLine(e));
      NewLineIsPlain(e);
      RoundTripBetween(items[0], d, st.text, NewLine(e));
      assert [p][0] == p && [p] == [p] + [] && items[1..] == [];
      ItemsStep([], p, [], n);
    } else {
      var rest, b := PrettyItems(items[1..], d) + (NewLine(e) + "]"), a.Fresh().Push(NewLine(d));
      NextElement(items, d, e, st);
      var p := Piece(st.name, st.text + head);
      ShortTail(p, ListPieces(rest, b), n);
      NewLineIsPlain(d);
      ItemsBack(items[1..], d, e, b, n);
      assert st.text + head + "" == st.text + head;
      RoundTripBetween(items[0], d, st.text, "");
      ItemsStep([], p, ListPieces(rest, b), n);
    }
  }

  lemma LastElement(items: seq<Json>, d: nat, e: nat, st: Scan)
    requires |items| == 1 && Hidden(items[0], 0, 0, true) && AtElement(st)
    ensures ListPieces(PrettyItems(items, d) + (NewLine(e) + "]"), st)
         == [Piece(st.name, st.text + Pretty(items[0], d) + NewLine(e))]
  {
    var head, tail := Pretty(items[0], d), NewLine(e) + "]";
    assert PrettyItems(items, d) + tail == head + tail;
    ElementRead(items[0], d, tail, st);
    LastPiece(e, "]", PastElement(items[0], d, st));
  }

  lemma NextPieces(items: seq<Json>, d: nat, e: nat, st: Scan)
    requires |items| > 1 && Hidden(items[0], 0, 0, true) && Closed(items[0]) && AtElement(st)
    ensures Pieces(PrettyItems(items, d) + (NewLine(e) + "]"), st)
         == [Piece(st.name, st.text + Pretty(items[0], d))]
            + Pieces(PrettyItems(items[1..], d) + (NewLine(e) + "]"), st.Fresh().Push(NewLine(d)))
  {
    var rest := PrettyItems(items[1..], d) + (NewLine(e) + "]");
    assert PrettyItems(items, d) + (NewLine(e) + "]") == Pretty(items[0], d) + (Separator(d) + rest);
    ElementRead(items[0], d, Separator(d) + rest, st);
    CutPiece(d, rest, PastElement(items[0], d, st));
  }

  lemma NextElement(items: seq<Json>, d: nat, e: nat, st: Scan)
    requires |items| > 1 && Hidden(items[0], 0, 0, true) && Closed(items[0]) && AtElement(st)
    ensures var rest, b := PrettyItems(items[1..], d) + (NewLine(e) + "]"), st.Fresh().Push(NewLine(d));
            ListPieces(PrettyItems(items, d) + (NewLine(e) + "]"), st)
            == [Piece(st.name, st.text + Pretty(items[0], d))] + ListPieces(rest, b)
  {
    var rest, b := PrettyItems(items[1..], d) + (NewLine(e) + "]"), st.Fresh().Push(NewLine(d));
    NextPieces(items, d, e, st);
    DropEmptyLastStep(Piece(st.name, st.text + Pretty(items[0], d)), Pieces(rest, b));
  }

  lemma RegroupTail(a: string, b: string, c: string, tail: string)
    ensures a + (b + c) + tail == a + (b + (c + tail))
  {
  }

  lemma MoreMembersText(pairs: Members, d: nat, tail: string)
    requires |pairs| > 1
    ensures PrettyMembers(pairs, d) + tail
         == PrettyMember(pairs[0], d) + (Separator(d) + (PrettyMembers(pairs[1..], d) + tail))
  {
    RegroupTail(PrettyMember(pairs[0], d), Separator(d), PrettyMembers(pairs[1..], d), tail);
  }

  lemma PutAllNormed(acc: Members, pairs: Members)
    requires pairs != []
    ensures PutAll(acc, NormMembers(pairs))
         == PutAll(Put(acc, pairs[0].name, Norm(pairs[0].value)), NormMembers(pairs[1..]))
  {
    var m := Member(pairs[0].name, Norm(pairs[0].value));
    assert NormMembers(pairs) == [m] + NormMembers(pairs[1..]);
    assert NormMembers(pairs)[0] == m && NormMembers(pairs)[1..] == NormMembers(pairs[1..]);
  }

  lemma {:induction false} MembersBack(pairs: Members, d: nat, e: nat, st: Scan, acc: Members, n: nat)
    requires pairs != [] && Typed(Object(pairs)) && ExactMembers(pairs) && AtName(st)
    requires Short(Pieces(PrettyMembers(pairs, d) + (NewLine(e) + "}"), st), n)
    ensures ParseMembers(Pieces(PrettyMembers(pairs, d) + (NewLine(e) + "}"), st), acc, n)
         == Ok(PutAll(acc, NormMembers(pairs)))
    decreases pairs, 0
  {
    var p := pairs[0];
    PutAllNormed(acc, pairs);
    if |pairs| == 1 {
      assert PrettyMembers(pairs, d) == PrettyMember(p, d);
      LastMemberBack(p, d, e, st, acc, n);
    } else {
      MoreMembersText(pairs, d, NewLine(e) + "}");
      NewLineIsPlain(d);
      NextMemberBack(p, d, PrettyMembers(pairs[1..], d) + (NewLine(e) + "}"), st, acc, n);
      MembersBack(pairs[1..], d, e, AtNext(d), Put(acc, p.name, Norm(p.value)), n);
    }
  }

  /** The object loop after a separator. */
  ghost function AtNext(d: nat): Scan {
    Start(false).Push(NewLine(d))
  }

  lemma OneMember(p: Piece, name: string, v: Json, acc: Members, n: nat)
    requires Short([p], n) && Parse(p.name) == Ok(Str(name)) && Parse(p.text) == Ok(v)
    ensures ParseMembers([p], acc, n) == Ok(Put(acc, name, v))
  {
    assert [p][0] == p && [p] == [p] + [];
    MembersStep(p, [], acc, n);
  }

  lemma LastMemberPieces(p: Member, d: nat, e: nat, st: Scan)
    requires AtName(st) && StrNet(Brace, p.name) == 0 && Hidden(p.value, 0, StrNet(Square, p.name), false)
    ensures Pieces(PrettyMember(p, d) + (NewLine(e) + "}"), st)
         == [Piece(st.name + Quote(p.name), " " + Pretty(p.value, d) + NewLine(e))]
  {
    MemberRead(p, d, NewLine(e) + "}", st);
    LastPiece(e, "}", PastMember(p, d, st));
  }

  lemma NextMemberPieces(p: Member, d: nat, rest: string, st: Scan)
    requires AtName(st) && StrNet(Brace, p.name) == 0 && Hidden(p.value, 0, StrNet(Square, p.name), false)
    requires ClosedMember(p) && rest != ""
    ensures Pieces(PrettyMember(p, d) + (Separator(d) + rest), st)
         == [Piece(st.name + Quote(p.name), " " + Pretty(p.value, d))] + Pieces(rest, AtNext(d))
  {
    var a := PastMember(p, d, st);
    MemberRead(p, d, Separator(d) + rest, st);
    CutPiece(d, rest, a);
    assert a.Fresh() == Start(false);
  }

  lemma {:induction false} LastMemberBack(p: Member, d: nat, e: nat, st: Scan, acc: Members, n: nat)
    requires Typed(p.value) && ExactMember(p) && AtName(st)
    requires Short(Pieces(PrettyMember(p, d) + (NewLine(e) + "}"), st), n)
    ensures ParseMembers(Pieces(PrettyMember(p, d) + (NewLine(e) + "}"), st), acc, n)
         == Ok(Put(acc, p.name, Norm(p.value)))
    decreases p, 2
  {
    LastMemberPieces(p, d, e, st);
    NewLineIsPlain(e);
    MemberBack(p, d, st.name, NewLine(e));
    var piece := Piece(st.name + Quote(p.name), " " + Pretty(p.value, d) + NewLine(e));
    OneMember(piece, p.name, Norm(p.value), acc, n);
  }

  lemma {:induction false} NextMemberBack(p: Member, d: nat, rest: string, st: Scan, acc: Members, n: nat)
    requires Typed(p.value) && ExactMember(p) && ClosedMember(p) && AtName(st) && rest != ""
    requires Short(Pieces(PrettyMember(p, d) + (Separator(d) + rest), st), n)
    ensures Short(Pieces(rest, AtNext(d)), n)
    ensures ParseMembers(Pieces(PrettyMember(p, d) + (Separator(d) + rest), st), acc, n)
         == ParseMembers(Pieces(rest, AtNext(d)), Put(acc, p.name, Norm(p.value)), n)
    decreases p, 2
  {
    NextMemberPieces(p, d, rest, st);
    var piece, ps := Piece(st.name + Quote(p.name), " " + Pretty(p.value, d)), Pieces(rest, AtNext(d));
    ShortTail(piece, ps, n);
    MemberBack(p, d, st.name, "");
    assert piece.text + "" == piece.text;
    MembersStep(piece, ps, acc, n);
  }

  lemma {:induction false} MemberBack(p: Member, d: nat, pre: string, post: string)
    requires Typed(p.value) && ExactMember(p) && AllSpace(pre) && AllSpace(post)
    ensures Parse(pre + Quote(p.name)) == Ok(Str(p.name))
    ensures Parse(" " + Pretty(p.value, d) + post) == Ok(Norm(p.value))
    decreases p, 1
  {
    assert pre + Quote(p.name) + "" == pre + Quote(p.name);
    StringBack(p.name, pre, "");
    RoundTripBetween(p.value, d, " ", post);
  }

  // ----- the law

  /** `parse(get_repr(v))` is `v`, up to the two normalisations that `Norm` states. */
  lemma RoundTrip(v: Json)
    requires Typed(v) && Exact(v)
    ensures Parse(Repr(v)) == Ok(Norm(v))
  {
    ReprIsPretty(v);
    assert "" + Pretty(v, 0) + "" == Pretty(v, 0);
    RoundTripBetween(v, 0, "", "");
  }

  // ----- a part of the domain that is closed under taking apart and putting together

  /** Braces and square brackets, counted apart from depths `o` and `l`, never go below zero and end there. */
  predicate Balanced(s: string, o: int, l: int) {
    && o >= 0 && l >= 0
    && if s == "" then o == 0 && l == 0 else Balanced(s[1..], o + ObjDelta(s[0]), l + ListDelta(s[0]))
  }

  predicate GoodString(s: string) {
    Printable(s) && Balanced(s, 0, 0)
  }

  /** Strings with balanced brackets, and no bare commas in those that are elements of a list. */
  predicate GoodValue(v: Json) {
    match v
    case Int(n) => INT_MIN <= n <= INT_MAX
    case LongLong(m) => LLONG_MIN <= m <= LLONG_MAX
    case Str(s) => GoodString(s)
    case Enum(code) => -1 <= code <= 1
    case Double(_) => false
    case List(items) =>
      items != [] && forall i | 0 <= i < |items| :: GoodValue(items[i]) && GoodElement(items[i])
    case Object(pairs) =>
      pairs != [] && forall i | 0 <= i < |pairs| :: GoodString(pairs[i].name) && GoodValue(pairs[i].value)
  }

  /** A direct element of a list must not show the list loop a comma. */
  predicate GoodElement(v: Json) {
    v.Str? ==> CommasInside(v.s, 0, 0)
  }

  lemma {:induction false} BalancedNet(s: string, o: int, l: int)
    requires Balanced(s, o, l)
    ensures StrNet(Brace, s) == -o && StrNet(Square, s) == -l
  {
    if s != "" {
      BalancedNet(s[1..], o + ObjDelta(s[0]), l + ListDelta(s[0]));
    }
  }

  /** Deeper than where it balances, a string shows no comma. */
  lemma {:induction false} BalancedHides(s: string, o: int, l: int, o': int, l': int)
    requires Balanced(s, o, l) && o' >= o && l' >= l
    requires o' > o || l' > l || CommasInside(s, o, l)
    ensures CommasInside(s, o', l')
  {
    if s != "" {
      var a, b := ObjDelta(s[0]), ListDelta(s[0]);
      BalancedHides(s[1..], o + a, l + b, o' + a, l' + b);
    }
  }

  lemma {:induction false} GoodIsClosed(v: Json)
    requires GoodValue(v)
    ensures Closed(v)
    decreases v, 1
  {
    match v {
      case Str(s) =>
        BalancedNet(s, 0, 0);
      case List(items) =>
        GoodItemsAreClosed(items);
      case Object(pairs) =>
        GoodMembersAreClosed(pairs);
      case _ =>
    }
  }

  lemma {:induction false} GoodItemsAreClosed(items: seq<Json>)
    requires forall i | 0 <= i < |items| :: GoodValue(items[i])
    ensures NetItems(Brace, items) == NetItems(Square, items) == 0
    decreases items, 0
  {
    if items != [] {
      GoodIsClosed(items[0]);
      GoodItemsAreClosed(items[1..]);
    }
  }

  lemma {:induction false} GoodMembersAreClosed(pairs: Members)
    requires forall i | 0 <= i < |pairs| :: GoodString(pairs[i].name) && GoodValue(pairs[i].value)
    ensures NetMembers(Brace, pairs) == NetMembers(Square, pairs) == 0
    decreases pairs, 0
  {
    if pairs != [] {
      BalancedNet(pairs[0].name, 0, 0);
      GoodIsClosed(pairs[0].value);
      GoodMembersAreClosed(pairs[1..]);
    }
  }

  lemma {:induction false} GoodIsHidden(v: Json, o: nat, l: nat, list: bool)
    requires GoodValue(v) && (list ==> o + l > 0 || GoodElement(v))
    ensures Hidden(v, o, l, list)
    decreases v, 1
  {
    match v {
      case Str(s) =>
        if list {
          BalancedHides(s, 0, 0, o, l);
        }
      case List(items) =>
        GoodItemsAreHidden(items, o, l + 1, list);
      case Object(pairs) =>
        GoodMembersAreHidden(pairs, o + 1, l, list);
      case _ =>
    }
  }

  lemma {:induction false} GoodItemsAreHidden(items: seq<Json>, o: nat, l: nat, list: bool)
    requires (forall i | 0 <= i < |items| :: GoodValue(items[i])) && o + l > 0
    ensures HiddenItems(items, o, l, list)
    decreases items, 0
  {
    if items != [] {
      GoodIsHidden(items[0], o, l, list);
      GoodIsClosed(items[0]);
      GoodItemsAreHidden(items[1..], o, l, list);
    }
  }

  lemma {:induction false} GoodMembersAreHidden(pairs: Members, o: nat, l: nat, list: bool)
    requires forall i | 0 <= i < |pairs| :: GoodString(pairs[i].name) && GoodValue(pairs[i].value)
    requires o + l > 0
    ensures HiddenMembers(pairs, o, l, list)
    decreases pairs, 0
  {
    if pairs != [] {
      BalancedNet(pairs[0].name, 0, 0);
      BalancedHides(pairs[0].name, 0, 0, o, l);
      GoodIsHidden(pairs[0].value, o, l, list);
      GoodIsClosed(pairs[0].value);
      GoodMembersAreHidden(pairs[1..], o, l, list);
    }
  }

  /** These values are preserved. */
  lemma {:induction false} GoodIsExact(v: Json)
    requires GoodValue(v)
    ensures Typed(v) && Exact(v)
    decreases v, 1
  {
    match v {
      case List(items) =>
        GoodItemsAreExact(items);
      case Object(pairs) =>
        GoodMembersAreExact(pairs);
      case _ =>
    }
  }

  lemma {:induction false} GoodItemsAreExact(items: seq<Json>)
    requires forall i | 0 <= i < |items| :: GoodValue(items[i]) && GoodElement(items[i])
    ensures Typed(List(items)) && ExactItems(items)
    decreases items, 0
  {
    if items != [] {
      GoodIsExact(items[0]);
      GoodIsHidden(items[0], 0, 0, true);
      GoodIsClosed(items[0]);
      GoodItemsAreExact(items[1..]);
      assert forall i | 0 < i < |items| :: items[i] == items[1..][i - 1];
    }
  }

  lemma {:induction false} GoodMembersAreExact(pairs: Members)
    requires forall i | 0 <= i < |pairs| :: GoodString(pairs[i].name) && GoodValue(pairs[i].value)
    ensures Typed(Object(pairs)) && ExactMembers(pairs)
    decreases pairs, 0
  {
    if pairs != [] {
      BalancedNet(pairs[0].name, 0, 0);
      GoodIsExact(pairs[0].value);
      GoodIsHidden(pairs[0].value, 0, 0, false);
      GoodIsClosed(pairs[0].value);
      GoodMembersAreExact(pairs[1..]);
      assert forall i | 0 < i < |pairs| :: pairs[i] == pairs[1..][i - 1];
    }
  }
}
