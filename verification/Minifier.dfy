/** `minify`: white space goes, string literals stay. */
module Minifier {
  import opened Outcomes
  import opened JsonValues
  import opened Numerals
  import opened JsonPrinter
  import opened JsonParser

  // ----- where a byte stands

  datatype Mode = Outside | Inside | Escaped

  function Step(m: Mode, c: char): Mode {
    match m
    case Outside => if c == '\"' then Inside else Outside
    case Inside => if c == '\"' then Outside else if c == '\\' then Escaped else Inside
    case Escaped => Inside
  }

  function ModeAfter(s: string, m: Mode): Mode {
    if s == "" then m else ModeAfter(s[1..], Step(m, s[0]))
  }

  /** The bytes of `s` that are not white space outside a literal. */
  function Kept(s: string, m: Mode): string {
    if s == "" then ""
    else (if m == Outside && IsSpace(s[0]) then "" else [s[0]]) + Kept(s[1..], Step(m, s[0]))
  }

  function Minified(s: string): Result<string> {
    if ModeAfter(s, Outside) == Outside then Ok(Kept(s, Outside)) else Throw
  }

  lemma {:induction false} ModeConcat(a: string, b: string, m: Mode)
    ensures ModeAfter(a + b, m) == ModeAfter(b, ModeAfter(a, m))
  {
    if a == "" {
      assert a + b == b;
    } else {
      assert (a + b)[1..] == a[1..] + b;
      ModeConcat(a[1..], b, Step(m, a[0]));
    }
  }

  lemma {:induction false} KeptConcat(a: string, b: string, m: Mode)
    ensures Kept(a + b, m) == Kept(a, m) + Kept(b, ModeAfter(a, m))
  {
    if a == "" {
      assert a + b == b;
    } else {
      assert (a + b)[1..] == a[1..] + b;
      KeptConcat(a[1..], b, Step(m, a[0]));
      var head := if m == Outside && IsSpace(a[0]) then "" else [a[0]];
      var next := Step(m, a[0]);
      assert head + (Kept(a[1..], next) + Kept(b, ModeAfter(a, m)))
          == (head + Kept(a[1..], next)) + Kept(b, ModeAfter(a, m));
    }
  }

  /** Dropping the white space changes neither the mode reached nor what a second pass keeps. */
  lemma {:induction false} KeptAgain(s: string, m: Mode)
    ensures ModeAfter(Kept(s, m), m) == ModeAfter(s, m)
    ensures Kept(Kept(s, m), m) == Kept(s, m)
  {
    if s != "" {
      var rest := Kept(s[1..], Step(m, s[0]));
      KeptAgain(s[1..], Step(m, s[0]));
      if m == Outside && IsSpace(s[0]) {
        assert "" + rest == rest;
      } else {
        assert ([s[0]] + rest)[1..] == rest;
      }
    }
  }

  /** Minifying twice is minifying once, and it throws on the second pass no more than on the first. */
  lemma Idempotent(s: string)
    requires Minified(s).Ok?
    ensures Minified(Minified(s).value) == Minified(s)
  {
    KeptAgain(s, Outside);
  }

  // ----- the code

  /** `input_string[i]`, which is a null byte at the very end. */
  function ByteAt(s: string, i: nat): char
    requires i <= |s|
  {
    if i < |s| then s[i] else '\0'
  }

  /** The loop that looks for the end of the literal opened at `start`. */
  method FindLiteralEnd(s: string, start: nat) returns (i: nat)
    requires start < |s| && s[start] == '\"'
    ensures start < i <= |s|
    ensures ByteAt(s, i) == '\"' ==> i < |s| && ModeAfter(s[start + 1..i + 1], Inside) == Outside
    ensures ByteAt(s, i) == '\"' ==> Kept(s[start + 1..i + 1], Inside) == s[start + 1..i + 1]
    ensures ByteAt(s, i) != '\"' ==> ModeAfter(s[start + 1..], Inside) != Outside
  {
    i := start;
    var closed := false;
    assert s[start + 1..start + 1] == "";
    while i < |s| && !closed
      invariant start <= i <= |s|
      invariant closed ==> start < i < |s| && s[i] == '\"' && StaysIn(s[start + 1..i], Inside)
      invariant !closed && i < |s| ==> StaysIn(s[start + 1..i + 1], Inside)
      invariant !closed && i == |s| ==> start < i && ModeAfter(s[start + 1..i], Inside) != Outside
      decreases |s| - i, !closed
    {
      i := i + 1;
      var c := ByteAt(s, i);
      if i < |s| {
        Extend(s, start + 1, i, Inside);
      }
      if c == '\\' {
        i := i + 1;
        if i < |s| {
          Extend(s, start + 1, i, Escaped);
        }
      } else if c == '\"' {
        closed := true;
      }
    }
    if closed {
      Extend(s, start + 1, i, Inside);
    } else {
      assert s[start + 1..i] == s[start + 1..];
    }
  }

  /** From inside a literal, `x` leads to `m` without a gap: all of it is kept. */
  ghost predicate StaysIn(x: string, m: Mode) {
    ModeAfter(x, Inside) == m && Kept(x, Inside) == x
  }

  lemma Extend(s: string, from: nat, i: nat, m: Mode)
    requires from <= i < |s| && m != Outside && StaysIn(s[from..i], m)
    ensures StaysIn(s[from..i + 1], Step(m, s[i]))
  {
    assert s[from..i + 1] == s[from..i] + [s[i]];
    ModeConcat(s[from..i], [s[i]], Inside);
    KeptConcat(s[from..i], [s[i]], Inside);
    assert [s[i]][1..] == "";
  }

  method Minify(s: string) returns (r: Result<string>)
    ensures r == Minified(s)
  {
    var output := "";
    var i := 0;
    assert s[..0] == "" && s[0..] == s;
    while i < |s|
      invariant 0 <= i <= |s|
      invariant ModeAfter(s[..i], Outside) == Outside && output == Kept(s[..i], Outside)
    {
      assert s == s[..i] + s[i..];
      ModeConcat(s[..i], s[i..], Outside);
      if s[i] == '\t' || s[i] == '\r' || s[i] == '\n' || s[i] == ' ' {
        OneMore(s, i);
        i := i + 1;
      } else if s[i] == '\"' {
        var end := FindLiteralEnd(s, i);
        if ByteAt(s, end) == '\"' {
          var literal := s[i..end + 1];
          assert literal == ['\"'] + s[i + 1..end + 1];
          assert literal[1..] == s[i + 1..end + 1];
          assert s[..end + 1] == s[..i] + literal;
          ModeConcat(s[..i], literal, Outside);
          KeptConcat(s[..i], literal, Outside);
          output := output + literal;
          i := end + 1;
        } else {
          assert s[i..][1..] == s[i + 1..];
          return Throw;
        }
      } else {
        OneMore(s, i);
        output := output + [s[i]];
        i := i + 1;
      }
    }
    assert s[..i] == s;
    return Ok(output);
  }

  lemma OneMore(s: string, i: nat)
    requires i < |s| && ModeAfter(s[..i], Outside) == Outside
    ensures ModeAfter(s[..i + 1], Outside) == Step(Outside, s[i])
    ensures Kept(s[..i + 1], Outside) == Kept(s[..i], Outside) + (if IsSpace(s[i]) then "" else [s[i]])
  {
    assert s[..i + 1] == s[..i] + [s[i]];
    ModeConcat(s[..i], [s[i]], Outside);
    KeptConcat(s[..i], [s[i]], Outside);
    assert [s[i]][1..] == "";
  }

  // ----- the printer's text, minified

  /** The compact printer. */
  function Compact(v: Json): string
    decreases v, 1
  {
    match v
    case Int(n) => IntText(n)
    case Str(s) => Quote(s)
    case List(items) => "[" + (CompactItems(items) + "]")
    case Object(pairs) => "{" + (CompactMembers(pairs) + "}")
    case Enum(code) => EnumText(code)
    case Double(text) => text
    case LongLong(m) => IntText(m)
  }

  function CompactItems(items: seq<Json>): string
    decreases items, 0
  {
    if items == [] then ""
    else Compact(items[0]) + (if |items| == 1 then "" else "," + CompactItems(items[1..]))
  }

  function CompactMembers(pairs: Members): string
    decreases pairs, 0
  {
    if pairs == [] then ""
    else CompactMember(pairs[0]) + (if |pairs| == 1 then "" else "," + CompactMembers(pairs[1..]))
  }

  function CompactMember(m: Member): string
    decreases m, 1
  {
    Quote(m.name) + (":" + Compact(m.value))
  }

  /** From outside, `x` leads back outside and shrinks to `y`. */
  ghost predicate Shrinks(x: string, y: string) {
    ModeAfter(x, Outside) == Outside && Kept(x, Outside) == y
  }

  lemma ShrinksConcat(a: string, a': string, b: string, b': string)
    requires Shrinks(a, a') && Shrinks(b, b')
    ensures Shrinks(a + b, a' + b')
  {
    ModeConcat(a, b, Outside);
    KeptConcat(a, b, Outside);
  }

  lemma {:induction false} ShrinksToItself(x: string)
    requires forall c | c in x :: !IsSpace(c) && c != '\"'
    ensures Shrinks(x, x)
  {
    if x != "" {
      assert x[0] in x;
      ShrinksToItself(x[1..]);
      assert x == [x[0]] + x[1..];
    }
  }

  lemma {:induction false} ShrinksToNothing(x: string)
    requires AllSpace(x)
    ensures Shrinks(x, "")
  {
    if x != "" {
      assert x[0] in x;
      ShrinksToNothing(x[1..]);
    }
  }

  lemma {:induction false} EscapeStaysInside(s: string)
    ensures ModeAfter(Escape(s), Inside) == Inside && Kept(Escape(s), Inside) == Escape(s)
  {
    if s != "" {
      EscapeStaysInside(s[1..]);
      UnitStaysInside(s[0]);
      ModeConcat(EscapeChar(s[0]), Escape(s[1..]), Inside);
      KeptConcat(EscapeChar(s[0]), Escape(s[1..]), Inside);
    }
  }

  lemma UnitStaysInside(c: char)
    ensures StaysIn(EscapeChar(c), Inside)
  {
    if EscapeLetter(c) != '\0' {
      PairStaysInside(EscapeLetter(c));
    } else if 0 < c as int < 32 {
      PairStaysInside('u');
      HexStaysInside(c as int);
      ModeConcat("\\u", Hex4(c as int), Inside);
      KeptConcat("\\u", Hex4(c as int), Inside);
    } else {
      assert [c][1..] == "";
    }
  }

  lemma PairStaysInside(c: char)
    ensures StaysIn(['\\', c], Inside)
  {
    var x := ['\\', c];
    assert x[1..] == [c] && [c][1..] == "";
    assert ModeAfter([c], Escaped) == Inside && Kept([c], Escaped) == [c];
  }

  lemma HexStaysInside(n: nat)
    requires n < 0x10000
    ensures StaysIn(Hex4(n), Inside)
  {
    assert forall i | 0 <= i < 16 :: HEX[i] != '\"' && HEX[i] != '\\';
    PlainStaysInside(Hex4(n));
  }

  lemma {:induction false} PlainStaysInside(x: string)
    requires forall c | c in x :: c != '\"' && c != '\\'
    ensures ModeAfter(x, Inside) == Inside && Kept(x, Inside) == x
  {
    if x != "" {
      assert x[0] in x;
      assert forall c | c in x[1..] :: c in x;
      PlainStaysInside(x[1..]);
      assert x == [x[0]] + x[1..];
    }
  }

  /** A body that stays inside its quotes. */
  lemma BodyInQuotes(x: string)
    requires ModeAfter(x, Inside) == Inside && Kept(x, Inside) == x
    ensures Shrinks("\"" + (x + "\""), "\"" + (x + "\""))
  {
    assert "\""[1..] == "";
    ModeConcat("\"", x + "\"", Outside);
    KeptConcat("\"", x + "\"", Outside);
    ModeConcat(x, "\"", Inside);
    KeptConcat(x, "\"", Inside);
  }

  lemma QuoteShrinks(s: string)
    ensures Shrinks(Quote(s), Quote(s))
  {
    EscapeStaysInside(s);
    BodyInQuotes(Escape(s));
    assert Quote(s) == "\"" + (Escape(s) + "\"");
  }

  lemma NewLineShrinks(d: nat)
    ensures Shrinks(NewLine(d), "") && Shrinks(Separator(d), ",")
  {
    ShrinksToNothing(NewLine(d));
    ShrinksToItself(",");
    ShrinksConcat(",", ",", NewLine(d), "");
  }

  lemma BracketedShrinks(open: string, body: string, body': string, shut: string, d: nat)
    requires Shrinks(open, open) && Shrinks(body, body') && Shrinks(shut, shut)
    ensures Shrinks(Bracketed(open, body, shut, d), open + (body' + shut))
  {
    NewLineShrinks(d);
    NewLineShrinks(d + 1);
    ShrinksConcat(NewLine(d), "", shut, shut);
    ShrinksConcat(body, body', NewLine(d) + shut, "" + shut);
    ShrinksConcat(NewLine(d + 1), "", body + (NewLine(d) + shut), body' + ("" + shut));
    ShrinksConcat(open, open, NewLine(d + 1) + (body + (NewLine(d) + shut)), "" + (body' + ("" + shut)));
    assert "" + (body' + ("" + shut)) == body' + shut;
  }

  lemma {:induction false} PrettyShrinks(v: Json, d: nat)
    ensures Shrinks(Pretty(v, d), Compact(v))
    decreases v, 1
  {
    match v {
      case Str(s) =>
        QuoteShrinks(s);
      case List(items) =>
        ItemsShrink(items, d + 1);
        ShrinksToItself("[");
        ShrinksToItself("]");
        BracketedShrinks("[", PrettyItems(items, d + 1), CompactItems(items), "]", d);
      case Object(pairs) =>
        MembersShrink(pairs, d + 1);
        ShrinksToItself("{");
        ShrinksToItself("}");
        BracketedShrinks("{", PrettyMembers(pairs, d + 1), CompactMembers(pairs), "}", d);
      case _ =>
        ScalarShrinks(v, d);
    }
  }

  lemma ScalarShrinks(v: Json, d: nat)
    requires !v.List? && !v.Object? && !v.Str?
    ensures Shrinks(Pretty(v, d), Compact(v))
  {
    match v {
      case Int(n) => NatTextMeaning(if n < 0 then -n else n);
      case LongLong(n) => NatTextMeaning(if n < 0 then -n else n);
      case Double(text) =>
      case Enum(_) =>
    }
    ShrinksToItself(Pretty(v, d));
  }

  lemma {:induction false} ItemsShrink(items: seq<Json>, d: nat)
    ensures Shrinks(PrettyItems(items, d), CompactItems(items))
    decreases items, 0
  {
    if items != [] {
      var head, head' := Pretty(items[0], d), Compact(items[0]);
      PrettyShrinks(items[0], d);
      if |items| == 1 {
        assert head + "" == head && head' + "" == head';
      } else {
        ItemsShrink(items[1..], d);
        JoinedShrinks(head, head', PrettyItems(items[1..], d), CompactItems(items[1..]), d);
      }
    }
  }

  lemma JoinedShrinks(head: string, head': string, rest: string, rest': string, d: nat)
    requires Shrinks(head, head') && Shrinks(rest, rest')
    ensures Shrinks(head + (Separator(d) + rest), head' + ("," + rest'))
  {
    NewLineShrinks(d);
    ShrinksConcat(Separator(d), ",", rest, rest');
    ShrinksConcat(head, head', Separator(d) + rest, "," + rest');
  }

  lemma {:induction false} MembersShrink(pairs: Members, d: nat)
    ensures Shrinks(PrettyMembers(pairs, d), CompactMembers(pairs))
    decreases pairs, 0
  {
    if pairs != [] {
      var head, head' := PrettyMember(pairs[0], d), CompactMember(pairs[0]);
      MemberShrinks(pairs[0], d);
      if |pairs| == 1 {
        assert head + "" == head && head' + "" == head';
      } else {
        MembersShrink(pairs[1..], d);
        JoinedShrinks(head, head', PrettyMembers(pairs[1..], d), CompactMembers(pairs[1..]), d);
      }
    }
  }

  lemma ColonShrinks()
    ensures Shrinks(": ", ":")
  {
    ShrinksToItself(":");
    ShrinksToNothing(" ");
    ShrinksConcat(":", ":", " ", "");
    assert ":" + " " == ": " && ":" + "" == ":";
  }

  lemma NamedShrinks(name: string, x: string, y: string)
    requires Shrinks(x, y)
    ensures Shrinks(Quote(name) + (": " + x), Quote(name) + (":" + y))
  {
    QuoteShrinks(name);
    ColonShrinks();
    ShrinksConcat(": ", ":", x, y);
    ShrinksConcat(Quote(name), Quote(name), ": " + x, ":" + y);
  }

  lemma {:induction false} MemberShrinks(m: Member, d: nat)
    ensures Shrinks(PrettyMember(m, d), CompactMember(m))
    decreases m, 1
  {
    PrettyShrinks(m.value, d);
    NamedShrinks(m.name, Pretty(m.value, d), Compact(m.value));
    assert PrettyMember(m, d) == Quote(m.name) + (": " + Pretty(m.value, d));
  }

  /** Minifying the printed text of any value removes all of the layered indentation and nothing else. */
  lemma MinifiedRepr(v: Json)
    ensures Minified(Repr(v)) == Ok(Compact(v))
  {
    ReprIsPretty(v);
    PrettyShrinks(v, 0);
  }
}
