/** The parser's container loops over a stretch of text: where they cut, and how the counters move. */
module JsonScan {
  import opened JsonPrinter
  import opened JsonParser

  // ----- counting brackets, quotes, and the weight of a text

  /** A control byte that the printer writes as `\u00xx`. */
  predicate IsCoded(c: char) {
    '\0' < c < '\U{08}' || '\r' < c < ' '
  }

  /** Commas weigh one, and so do the bytes printed with four hexadecimal digits. */
  function CharWeight(c: char): nat {
    if c == ',' || IsCoded(c) then 1 else 0
  }

  /** What is counted: opened minus closed braces, opened minus closed square brackets, weight. */
  datatype Mark = Brace | Square | Comma

  /** One turn of a loop takes a byte `x`, and if that is a backslash the byte `c` after it; else `c` is `x`. */
  function UnitCount(m: Mark, x: char, c: char): (n: int)
    ensures m.Comma? ==> n >= 0
  {
    match m
    case Brace => ObjDelta(c)
    case Square => ListDelta(c)
    case Comma => if x == '\\' && c == 'u' then 1 else CharWeight(c)
  }

  function Skip(x: string): nat
    requires x != ""
  {
    if x[0] == '\\' then 1 else 0
  }

  /** The text after the first turn. */
  function Rest(x: string): (r: string)
    requires x != "" && Skip(x) < |x|
    ensures |r| < |x|
  {
    x[Skip(x) + 1..]
  }

  function Count(m: Mark, x: string): (n: int)
    ensures m.Comma? ==> n >= 0
    decreases |x|
  {
    if x == "" || Skip(x) >= |x| then 0 else UnitCount(m, x[0], x[Skip(x)]) + Count(m, Rest(x))
  }

  function Weight(x: string): nat {
    Count(Comma, x)
  }

  /** Whether the number of quotes that no backslash takes along is odd. */
  predicate Odd(x: string)
    decreases |x|
  {
    x != "" && Skip(x) < |x| && (x[0] == '\"') != Odd(Rest(x))
  }

  /** The bytes of the first turn. */
  function Unit(x: string): string
    requires x != "" && Skip(x) < |x|
  {
    if x[0] == '\\' then ['\\', x[1]] else [x[0]]
  }

  /** No backslash is left without the byte it takes along. */
  predicate Whole(x: string)
    decreases |x|
  {
    x == "" || (Skip(x) < |x| && Whole(Rest(x)))
  }

  /** The state after `x` has been copied to the current buffer and the counters have moved. */
  function After(st: Scan, x: string): Scan {
    Moved(st, x, Count(Brace, x), Count(Square, x), Odd(x))
  }

  function Moved(st: Scan, x: string, objs: int, lists: int, odd: bool): Scan {
    st.Push(x).(objs := st.objs + objs, lists := st.lists + lists, quoted := st.quoted != odd)
  }

  lemma SeenIsMoved(st: Scan, x: char, c: char)
    requires x != '\\' ==> x == c
    ensures st.Seen(x, c).Push([c])
         == Moved(st, if x == '\\' then ['\\', c] else [c], ObjDelta(c), ListDelta(c), x == '\"')
  {
    assert st.name + "\\" + [c] == st.name + ['\\', c] && st.text + "\\" + [c] == st.text + ['\\', c];
  }

  /** A turn starts at position `k`. */
  ghost predicate Turn(x: string, k: nat) {
    k < |x| && Whole(x[..k])
  }

  /** The byte that the turn at `k` ends on. */
  function CharAt(x: string, k: nat): char
    requires k < |x|
  {
    if x[k] == '\\' && k + 1 < |x| then x[k + 1] else x[k]
  }

  /** With these counters after the tests on it, the byte `c` ends the name or the piece. */
  predicate Ends(c: char, list: bool, naming: bool, o: int, l: int, quoted: bool) {
    || (c == ':' && !list && naming && o == 0 && !quoted)
    || (c == ',' && (list || !quoted) && o == 0 && l == 0)
  }

  /** The turn at `k` ends the name or the piece, if the loop was at the given counters before `x`. */
  ghost predicate Stops(x: string, k: nat, list: bool, naming: bool, o: int, l: int, quoted: bool)
    requires k < |x|
  {
    Ends(CharAt(x, k), list, naming,
         o + Count(Brace, x[..k]) + ObjDelta(CharAt(x, k)), l + Count(Square, x[..k]) + ListDelta(CharAt(x, k)),
         (quoted != Odd(x[..k])) != (x[k] == '\"'))
  }

  /** None of the turns over `x`, from the given counters on, ends the name or the piece. */
  ghost predicate Quiet(x: string, list: bool, naming: bool, o: int, l: int, quoted: bool) {
    forall k | Turn(x, k) :: !Stops(x, k, list, naming, o, l, quoted)
  }

  ghost predicate QuietFrom(x: string, st: Scan) {
    Quiet(x, st.list, st.naming, st.objs, st.lists, st.quoted)
  }

  lemma {:induction false} CountConcat(a: string, b: string)
    requires Whole(a)
    ensures forall m :: Count(m, a + b) == Count(m, a) + Count(m, b)
    ensures Odd(a + b) == (Odd(a) != Odd(b))
    ensures Whole(a + b) <==> Whole(b)
    decreases |a|
  {
    if a == "" {
      assert a + b == b;
    } else {
      assert Rest(a + b) == Rest(a) + b && (a + b)[Skip(a)] == a[Skip(a)];
      CountConcat(Rest(a), b);
    }
  }

  lemma {:induction false} AfterConcat(a: string, b: string, st: Scan)
    requires Whole(a)
    ensures After(st, a + b) == After(After(st, a), b)
  {
    CountConcat(a, b);
    assert st.name + a + b == st.name + (a + b) && st.text + a + b == st.text + (a + b);
  }

  lemma AfterNothing(st: Scan)
    ensures After(st, "") == st
  {
    assert st.name + "" == st.name && st.text + "" == st.text;
  }

  lemma OneTurn(unit: string)
    requires unit != "" && Skip(unit) < |unit| && Rest(unit) == ""
    ensures Whole(unit) && Odd(unit) == (unit[0] == '\"')
    ensures forall m :: Count(m, unit) == UnitCount(m, unit[0], unit[Skip(unit)])
  {
  }

  lemma UnitParts(x: string)
    requires x != "" && Skip(x) < |x|
    ensures Unit(x) + Rest(x) == x
    ensures var unit := Unit(x);
            Skip(unit) < |unit| && Rest(unit) == "" && unit[0] == x[0] && unit[Skip(unit)] == x[Skip(x)]
  {
  }

  lemma UnitIsWhole(x: string)
    requires x != "" && Skip(x) < |x|
    ensures Unit(x) + Rest(x) == x
    ensures Whole(Unit(x)) && Odd(Unit(x)) == (x[0] == '\"')
    ensures forall m :: Count(m, Unit(x)) == UnitCount(m, x[0], x[Skip(x)])
  {
    UnitParts(x);
    OneTurn(Unit(x));
  }

  /** One quiet turn. */
  lemma TurnIsAfter(x: string, st: Scan)
    requires x != "" && Skip(x) < |x|
    ensures st.Seen(x[0], x[Skip(x)]).Push([x[Skip(x)]]) == After(st, Unit(x))
    ensures Unit(x) + Rest(x) == x && Whole(Unit(x))
  {
    UnitIsWhole(x);
    SeenIsMoved(st, x[0], x[Skip(x)]);
  }

  lemma TurnLeft(a: string, b: string, k: nat)
    requires Whole(a) && k < |a|
    ensures (a + b)[..k] == a[..k] && (a + b)[k] == a[k] && (Turn(a + b, k) <==> Turn(a, k))
    ensures Turn(a, k) ==> CharAt(a + b, k) == CharAt(a, k)
  {
    assert (a + b)[..k] == a[..k];
    if Whole(a[..k]) {
      CountConcat(a[..k], a[k..]);
      assert a[..k] + a[k..] == a;
      assert a[k..][0] == a[k];
    }
  }

  lemma {:induction false} TurnRight(a: string, b: string, k: nat)
    requires Whole(a) && k < |b|
    ensures (a + b)[..|a| + k] == a + b[..k] && (a + b)[|a| + k] == b[k]
    ensures Turn(a + b, |a| + k) <==> Turn(b, k)
    ensures CharAt(a + b, |a| + k) == CharAt(b, k)
  {
    assert (a + b)[..|a| + k] == a + b[..k];
    CountConcat(a, b[..k]);
  }

  lemma StopsRight(a: string, b: string, k: nat, list: bool, naming: bool, o: int, l: int, quoted: bool,
                   o': int, l': int, quoted': bool)
    requires Whole(a) && k < |b|
    requires o' == o + Count(Brace, a) && l' == l + Count(Square, a) && quoted' == (quoted != Odd(a))
    ensures Stops(a + b, |a| + k, list, naming, o, l, quoted) <==> Stops(b, k, list, naming, o', l', quoted')
  {
    TurnRight(a, b, k);
    CountConcat(a, b[..k]);
  }

  lemma StopsLeft(a: string, b: string, k: nat, list: bool, naming: bool, o: int, l: int, quoted: bool)
    requires Whole(a) && Turn(a, k)
    ensures Stops(a + b, k, list, naming, o, l, quoted) <==> Stops(a, k, list, naming, o, l, quoted)
  {
    TurnLeft(a, b, k);
  }

  lemma QuietConcat(a: string, b: string, list: bool, naming: bool, o: int, l: int, quoted: bool,
                  o': int, l': int, quoted': bool)
    requires Whole(a)
    requires o' == o + Count(Brace, a) && l' == l + Count(Square, a) && quoted' == (quoted != Odd(a))
    ensures Quiet(a + b, list, naming, o, l, quoted) <==>
            Quiet(a, list, naming, o, l, quoted) && Quiet(b, list, naming, o', l', quoted')
  {
    if Quiet(a + b, list, naming, o, l, quoted) {
      QuietSplit(a, b, list, naming, o, l, quoted, o', l', quoted');
    }
    if Quiet(a, list, naming, o, l, quoted) && Quiet(b, list, naming, o', l', quoted') {
      QuietJoin(a, b, list, naming, o, l, quoted, o', l', quoted');
    }
  }

  lemma QuietJoin(a: string, b: string, list: bool, naming: bool, o: int, l: int, quoted: bool,
                  o': int, l': int, quoted': bool)
    requires Whole(a) && Quiet(a, list, naming, o, l, quoted) && Quiet(b, list, naming, o', l', quoted')
    requires o' == o + Count(Brace, a) && l' == l + Count(Square, a) && quoted' == (quoted != Odd(a))
    ensures Quiet(a + b, list, naming, o, l, quoted)
  {
    forall k: nat | Turn(a + b, k) ensures !Stops(a + b, k, list, naming, o, l, quoted) {
      if k < |a| {
        TurnLeft(a, b, k);
        StopsLeft(a, b, k, list, naming, o, l, quoted);
      } else {
        var j := k - |a|;
        TurnRight(a, b, j);
        assert Turn(b, j);
        StopsRight(a, b, j, list, naming, o, l, quoted, o', l', quoted');
      }
    }
  }

  lemma QuietSplit(a: string, b: string, list: bool, naming: bool, o: int, l: int, quoted: bool,
                   o': int, l': int, quoted': bool)
    requires Whole(a) && Quiet(a + b, list, naming, o, l, quoted)
    requires o' == o + Count(Brace, a) && l' == l + Count(Square, a) && quoted' == (quoted != Odd(a))
    ensures Quiet(a, list, naming, o, l, quoted) && Quiet(b, list, naming, o', l', quoted')
  {
    forall k: nat | Turn(a, k) ensures !Stops(a, k, list, naming, o, l, quoted) {
      TurnLeft(a, b, k);
      StopsLeft(a, b, k, list, naming, o, l, quoted);
    }
    forall k: nat | Turn(b, k) ensures !Stops(b, k, list, naming, o', l', quoted') {
      TurnRight(a, b, k);
      StopsRight(a, b, k, list, naming, o, l, quoted, o', l', quoted');
      assert Turn(a + b, |a| + k);
    }
  }

  /** One turn by itself. */
  lemma UnitQuiet(x: string, list: bool, naming: bool, o: int, l: int, quoted: bool)
    requires x != "" && Skip(x) < |x|
    ensures var c := x[Skip(x)];
            Quiet(Unit(x), list, naming, o, l, quoted) <==>
            !Ends(c, list, naming, o + ObjDelta(c), l + ListDelta(c), quoted != (x[0] == '\"'))
  {
    var u := Unit(x);
    assert u[..0] == "";
    assert Turn(u, 0);
    if |u| == 2 {
      assert u[..1] == "\\";
    }
  }

  lemma QuietTurn(x: string, st: Scan)
    requires x != "" && Skip(x) < |x|
    ensures var c := x[Skip(x)];
            var a := st.Seen(x[0], c);
            QuietFrom(x, st) <==> !a.EndsName(c) && !a.EndsPiece(c) && QuietFrom(Rest(x), After(st, Unit(x)))
  {
    UnitIsWhole(x);
    UnitQuiet(x, st.list, st.naming, st.objs, st.lists, st.quoted);
    var c := x[Skip(x)];
    QuietConcat(Unit(x), Rest(x), st.list, st.naming, st.objs, st.lists, st.quoted,
                st.objs + ObjDelta(c), st.lists + ListDelta(c), st.quoted != (x[0] == '\"'));
  }

  /** A quiet stretch is copied whole, whatever follows it. */
  lemma {:induction false} QuietReads(x: string, y: string, st: Scan)
    requires Whole(x) && QuietFrom(x, st) && y != ""
    ensures Pieces(x + y, st) == Pieces(y, After(st, x))
    decreases |x|
  {
    if x == "" {
      assert x + y == y;
      AfterNothing(st);
    } else {
      assert Rest(x + y) == Rest(x) + y && (x + y)[Skip(x)] == x[Skip(x)];
      TurnIsAfter(x, st);
      QuietTurn(x, st);
      QuietReads(Rest(x), y, After(st, Unit(x)));
      AfterConcat(Unit(x), Rest(x), st);
    }
  }

  // ----- stretches that are quiet

  predicate IsMark(c: char) {
    c == '\"' || c == '\\' || c == ':' || c == ',' || c == '{' || c == '}' || c == '[' || c == ']' || IsCoded(c)
  }

  predicate Plain(x: string) {
    forall c | c in x :: !IsMark(c)
  }

  /** No marks at all. */
  ghost predicate Unmarked(x: string) {
    Whole(x) && !Odd(x) && forall m :: Count(m, x) == 0
  }

  lemma {:induction false} PlainIsUnmarked(x: string)
    requires Plain(x)
    ensures Unmarked(x)
  {
    if x != "" {
      assert x[0] in x;
      PlainIsUnmarked(Rest(x));
    }
  }

  lemma PlainQuiet(x: string, list: bool, naming: bool, o: int, l: int, quoted: bool)
    requires Plain(x)
    ensures Quiet(x, list, naming, o, l, quoted)
  {
    forall k: nat | Turn(x, k) ensures !Stops(x, k, list, naming, o, l, quoted) {
      assert x[k] in x;
    }
  }

  /** Plain text goes to the current buffer and changes nothing else. */
  lemma {:induction false} PlainReads(x: string, y: string, st: Scan)
    requires Plain(x) && y != ""
    ensures Pieces(x + y, st) == Pieces(y, st.Push(x))
  {
    PlainIsUnmarked(x);
    PlainQuiet(x, st.list, st.naming, st.objs, st.lists, st.quoted);
    QuietReads(x, y, st);
  }

  lemma NewLineIsPlain(d: nat)
    ensures Plain(NewLine(d)) && AllSpace(NewLine(d))
  {
  }

  lemma SpaceIsPlain(s: string)
    requires AllSpace(s)
    ensures Plain(s)
  {
  }

  lemma ByteCount(c: char)
    requires c != '\\'
    ensures Whole([c]) && Odd([c]) == (c == '\"')
    ensures forall m :: Count(m, [c]) == UnitCount(m, c, c)
  {
    UnitIsWhole([c]);
  }

  lemma ByteQuiet(c: char, list: bool, naming: bool, o: int, l: int, quoted: bool)
    requires c != '\\'
    ensures Quiet([c], list, naming, o, l, quoted) <==>
            !Ends(c, list, naming, o + ObjDelta(c), l + ListDelta(c), quoted != (c == '\"'))
  {
    UnitQuiet([c], list, naming, o, l, quoted);
  }

  // ----- the first piece

  /** The buffer that is not the name only grows until the piece ends. */
  lemma {:induction false} TextGrows(u: string, st: Scan)
    requires !st.naming
    ensures st.name == Pieces(u, st)[0].name && st.text <= Pieces(u, st)[0].text
    decreases |u|
  {
    if |u| > 1 {
      var k := Skip(u);
      var a := st.Seen(u[0], u[k]);
      if !a.EndsPiece(u[k]) {
        TextGrows(Rest(u), a.Push([u[k]]));
      }
    }
  }

  lemma {:induction false} NameGrows(u: string, st: Scan)
    requires st.naming
    ensures st.name <= Pieces(u, st)[0].name
    decreases |u|
  {
    if |u| > 1 {
      var k := Skip(u);
      var a := st.Seen(u[0], u[k]);
      if a.EndsName(u[k]) {
        TextGrows(Rest(u), a.(naming := false));
      } else if !a.EndsPiece(u[k]) {
        NameGrows(Rest(u), a.Push([u[k]]));
      }
    }
  }

  lemma {:induction false} PrefixWeight(a: string, b: string)
    requires a <= b
    ensures Weight(a) <= Weight(b)
    decreases |a|
  {
    if a != "" && Skip(a) < |a| {
      var k := Skip(a);
      assert b[k] == a[k] && Rest(a) <= Rest(b);
      PrefixWeight(Rest(a), Rest(b));
    }
  }

  lemma LoneBackslash(buffer: string)
    requires Whole(buffer)
    ensures Weight(buffer + "\\") == Weight(buffer)
  {
    CountConcat(buffer, "\\");
  }

  /** What one turn adds to a buffer, with and without the byte it ends on. */
  lemma BufferWeight(buffer: string, x: string)
    requires Whole(buffer) && x != "" && Skip(x) < |x|
    ensures Weight(buffer + "\\") == Weight(buffer)
    ensures Whole(buffer + Unit(x)) && Weight(buffer + Unit(x)) == Weight(buffer) + UnitCount(Comma, x[0], x[Skip(x)])
  {
    UnitIsWhole(x);
    CountConcat(buffer, Unit(x));
    LoneBackslash(buffer);
  }

  /** A piece that ends inside `x` lacks at least the weight of the comma that ended it. */
  lemma {:induction false} CutIsLighter(x: string, y: string, st: Scan)
    requires Whole(x) && !QuietFrom(x, st) && y != "" && !st.naming && Whole(st.text)
    ensures Weight(Pieces(x + y, st)[0].text) < Weight(st.text) + Weight(x)
    decreases |x|
  {
    var k := Skip(x);
    var c := x[k];
    var a := st.Seen(x[0], c);
    assert Rest(x + y) == Rest(x) + y && (x + y)[k] == c;
    BufferWeight(st.text, x);
    assert Weight(x) == UnitCount(Comma, x[0], c) + Weight(Rest(x));
    if a.EndsPiece(c) {
      assert Weight(a.text) == Weight(st.text);
    } else {
      TurnIsAfter(x, st);
      QuietTurn(x, st);
      CutIsLighter(Rest(x), y, After(st, Unit(x)));
    }
  }

  // ----- cutting makes no weight

  function PieceWeight(p: Piece): nat {
    1 + Weight(p.name) + Weight(p.text)
  }

  function SumWeight(ps: seq<Piece>): nat {
    if ps == [] then 0 else PieceWeight(ps[0]) + SumWeight(ps[1..])
  }

  /** Together with the commas between them, the pieces weigh no more than the text. */
  lemma {:induction false} PiecesWeight(u: string, st: Scan)
    requires Whole(st.text) && (st.naming ==> Whole(st.name))
    ensures SumWeight(Pieces(u, st)) <= PieceWeight(Piece(st.name, st.text)) + Weight(u)
    decreases |u|
  {
    if |u| > 1 {
      var k := Skip(u);
      var c := u[k];
      var a := st.Seen(u[0], c);
      PushWeight(u, st);
      if a.EndsName(c) {
        PiecesWeight(Rest(u), a.(naming := false));
      } else if a.EndsPiece(c) {
        PiecesWeight(Rest(u), a.Fresh());
        assert ([Piece(a.name, a.text)] + Pieces(Rest(u), a.Fresh()))[1..] == Pieces(Rest(u), a.Fresh());
      } else {
        PiecesWeight(Rest(u), a.Push([c]));
      }
    }
  }

  /** The buffers after one turn, with a byte of the text and without it. */
  lemma PushWeight(u: string, st: Scan)
    requires u != "" && Skip(u) < |u|
    requires Whole(st.text) && (st.naming ==> Whole(st.name))
    ensures var c := u[Skip(u)];
            var a, b := st.Seen(u[0], c), st.Seen(u[0], c).Push([c]);
            && PieceWeight(Piece(a.name, a.text)) == PieceWeight(Piece(st.name, st.text))
            && (st.naming ==> Whole(a.text))
            && Whole(b.text) && (b.naming ==> Whole(b.name))
            && PieceWeight(Piece(b.name, b.text)) == PieceWeight(Piece(st.name, st.text)) + UnitCount(Comma, u[0], c)
  {
    TurnIsAfter(u, st);
    BufferWeight(if st.naming then st.name else st.text, u);
  }
}
