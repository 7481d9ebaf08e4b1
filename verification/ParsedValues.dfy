/** What holds of every parsed value, and of parsing an empty object or list. */
module ParsedValues {
  import opened Outcomes
  import opened JsonValues
  import opened JsonPrinter
  import opened JsonParser
  import opened JsonScan
  import opened JsonRoundTrip

  /** Every object inside has pairwise distinct names. */
  ghost predicate Distinct(v: Json) {
    match v
    case List(items) => forall i | 0 <= i < |items| :: Distinct(items[i])
    case Object(pairs) => DistinctKeys(pairs) && forall i | 0 <= i < |pairs| :: Distinct(pairs[i].value)
    case _ => true
  }

  /** Whatever the text, `parse` builds objects with distinct names only. */
  lemma {:induction false} ParsedIsDistinct(s: string)
    ensures Parse(s).Ok? ==> Distinct(Parse(s).value)
    decreases |s|, 1, 0
  {
    var t := Strip(s);
    if t != "" && t[0] == '{' {
      MembersAreDistinct(Inner(t), [], |t|);
    } else if t != "" && t[0] == '[' {
      ItemsAreDistinct(InnerItems(t), |t|);
    }
  }

  lemma {:induction false} MembersAreDistinct(ps: seq<Piece>, acc: Members, n: nat)
    requires Short(ps, n) && Distinct(Object(acc))
    ensures ParseMembers(ps, acc, n).Ok? ==> Distinct(Object(ParseMembers(ps, acc, n).value))
    decreases n, 0, |ps|
  {
    if ps != [] && Parse(ps[0].text).Ok? && Parse(ps[0].name).Ok? {
      var k, v := StringOf(Parse(ps[0].name).value), Parse(ps[0].text).value;
      ParsedIsDistinct(ps[0].text);
      PutKeepsDistinct(acc, k, v);
      MembersAreDistinct(ps[1..], Put(acc, k, v), n);
    }
  }

  lemma {:induction false} ItemsAreDistinct(ps: seq<Piece>, n: nat)
    requires Short(ps, n)
    ensures ParseItems(ps, n).Ok? ==> Distinct(List(ParseItems(ps, n).value))
    decreases n, 0, |ps|
  {
    if ps != [] {
      ParsedIsDistinct(ps[0].text);
      ItemsAreDistinct(ps[1..], n);
    }
  }

  /** Whatever the text, no long integer that `parse` builds is in the range of the short ones. */
  lemma {:induction false} ParsedIsNormal(s: string)
    ensures Parse(s).Ok? ==> Norm(Parse(s).value) == Parse(s).value
    decreases |s|, 1, 0
  {
    var t := Strip(s);
    if t != "" && t[0] == '{' {
      var ps := Inner(t);
      MembersAreDistinct(ps, [], |t|);
      MembersAreNormal(ps, [], |t|);
      if ParseMembers(ps, [], |t|).Ok? {
        var r := ParseMembers(ps, [], |t|).value;
        assert [] + r == r;
        PutAllDistinct([], r);
      }
    } else if t != "" && t[0] == '[' {
      ItemsAreNormal(InnerItems(t), |t|);
    }
  }

  lemma {:induction false} MembersAreNormal(ps: seq<Piece>, acc: Members, n: nat)
    requires Short(ps, n) && NormMembers(acc) == acc
    ensures var r := ParseMembers(ps, acc, n); r.Ok? ==> NormMembers(r.value) == r.value
    decreases n, 0, |ps|
  {
    if ps != [] && Parse(ps[0].text).Ok? && Parse(ps[0].name).Ok? {
      var k, v := StringOf(Parse(ps[0].name).value), Parse(ps[0].text).value;
      ParsedIsNormal(ps[0].text);
      NormPut(acc, k, v);
      MembersAreNormal(ps[1..], Put(acc, k, v), n);
    }
  }

  lemma {:induction false} ItemsAreNormal(ps: seq<Piece>, n: nat)
    requires Short(ps, n)
    ensures var r := ParseItems(ps, n); r.Ok? ==> NormItems(r.value) == r.value
    decreases n, 0, |ps|
  {
    if ps != [] && ParseItems(ps, n).Ok? {
      ParsedIsNormal(ps[0].text);
      ItemsAreNormal(ps[1..], n);
      assert ParseItems(ps, n).value[1..] == ParseItems(ps[1..], n).value;
    }
  }

  /** Nothing but white space parses as zero. */
  lemma BlankIsZero(s: string)
    requires AllSpace(s)
    ensures Parse(s) == Ok(Int(0))
  {
    assert s == "" + "" + s;
    StripParts("", "", s);
  }

  /** What the printer puts between the brackets of an empty container. */
  ghost function Blank(): string {
    NewLine(1) + NewLine(0)
  }

  lemma BlankText(open: string, shut: string)
    requires |open| == |shut| == 1
    ensures Bracketed(open, "", shut, 0) == open + (Blank() + shut)
    ensures (open + (Blank() + shut))[1..] == Blank() + shut
    ensures AllSpace(Blank()) && Plain(Blank()) && Blank() != ""
  {
    NewLineIsPlain(0);
    NewLineIsPlain(1);
  }

  lemma EmptyText(v: Json, open: string, shut: string)
    requires |open| == |shut| == 1 && !IsSpace(open[0]) && !IsSpace(shut[0])
    requires Pretty(v, 0) == Bracketed(open, "", shut, 0)
    ensures Strip(Repr(v)) == open + (Blank() + shut) && (open + (Blank() + shut))[1..] == Blank() + shut
    ensures AllSpace(Blank()) && Plain(Blank()) && Blank() != ""
  {
    ReprIsPretty(v);
    BlankText(open, shut);
    StripEnds(open + (Blank() + shut));
  }

  lemma StripEnds(t: string)
    requires t != "" && !IsSpace(t[0]) && !IsSpace(t[|t| - 1])
    ensures Strip(t) == t
  {
    assert "" + t + "" == t;
    StripParts("", t, "");
  }

  lemma BlankPieces(list: bool, shut: string)
    requires |shut| == 1
    ensures Pieces(Blank() + shut, Start(list)) == [if list then Piece("", Blank()) else Piece(Blank(), "")]
  {
    NewLineIsPlain(0);
    NewLineIsPlain(1);
    PlainReads(Blank(), shut, Start(list));
    assert "" + Blank() == Blank();
  }

  lemma BlankMember(n: nat)
    requires |Blank()| < n
    ensures ParseMembers([Piece(Blank(), "")], [], n) == Ok([Member("", Int(0))])
  {
    NewLineIsPlain(0);
    NewLineIsPlain(1);
    BlankIsZero("");
    BlankIsZero(Blank());
    var p := Piece(Blank(), "");
    assert [p] == [p] + [];
    MembersStep(p, [], [], n);
    assert Parse(p.name) == Parse(p.text) == Ok(Int(0));
    assert Put([], "", Int(0)) == [Member("", Int(0))];
    assert ParseMembers([], [Member("", Int(0))], n) == Ok([Member("", Int(0))]);
  }

  lemma BlankItem(n: nat)
    requires |Blank()| < n
    ensures ParseItems([Piece("", Blank())], n) == Ok([Int(0)])
  {
    NewLineIsPlain(0);
    NewLineIsPlain(1);
    BlankIsZero(Blank());
    var p := Piece("", Blank());
    assert [p][0] == p && [p][1..] == [];
    assert Parse(p.text) == Ok(Int(0));
    assert ParseItems([], n) == Ok([]) && [Int(0)] + [] == [Int(0)];
  }

  /** An empty object comes back with a member that has no name. */
  lemma EmptyObjectBack()
    ensures Parse(Repr(Object([]))) == Ok(Object([Member("", Int(0))]))
  {
    EmptyText(Object([]), "{", "}");
    BlankPieces(false, "}");
    BlankMember(|"{" + (Blank() + "}")|);
  }

  /** An empty list comes back with a zero in it. */
  lemma EmptyListBack()
    ensures Parse(Repr(List([]))) == Ok(List([Int(0)]))
  {
    EmptyText(List([]), "[", "]");
    BlankPieces(true, "]");
    BlankItem(|"[" + (Blank() + "]")|);
  }

  // ----- lists of one element, with and without a comma behind it

  /** A comma and the closing bracket, outside all brackets. */
  lemma CommaThenEnd(u: string, st: Scan)
    requires u == ",]" && st.list && st.objs == 0 && st.lists == 0 && !st.naming
    ensures Pieces(u, st) == [Piece(st.name, st.text), Piece("", "")]
  {
    assert |u| == 2 && u[0] == ',' && u[1..] == "]";
    assert Pieces("]", st.Fresh()) == [Piece("", "")];
  }

  lemma PlainPieces(x: string, u: string)
    requires Plain(x) && u == ",]"
    ensures Pieces(x + "]", Start(true)) == [Piece("", x)]
    ensures Pieces(x + u, Start(true)) == [Piece("", x), Piece("", "")]
  {
    var st := Start(true).Push(x);
    assert st.text == x;
    PlainReads(x, "]", Start(true));
    PlainReads(x, u, Start(true));
    CommaThenEnd(u, st);
  }

  lemma BracketedText(x: string, shut: string)
    requires shut == "]" || shut == ",]"
    ensures Strip("[" + x + shut) == "[" + x + shut && Inner("[" + x + shut) == Pieces(x + shut, Start(true))
  {
    StripEnds("[" + x + shut);
    assert ("[" + x + shut)[1..] == x + shut;
  }

  lemma OneItem(x: string, n: nat)
    requires |x| < n
    ensures ParseItems([Piece("", x)], n) == if Parse(x).Ok? then Ok([Parse(x).value]) else Throw
    ensures ParseItems([], n) == Ok([])
  {
    FirstItem(Piece("", x), n);
  }

  lemma FirstItem(p: Piece, n: nat)
    requires |p.name| < n && |p.text| < n
    ensures ParseItems([p], n) == if Parse(p.text).Ok? then Ok([Parse(p.text).value]) else Throw
  {
    var ps := [p];
    assert ps[0] == p && ps[1..] == [];
    var none := ParseItems(ps[1..], n);
    assert none == Ok([]);
    assert Parse(p.text).Ok? ==> [Parse(p.text).value] + none.value == [Parse(p.text).value];
  }

  /** Nothing between the brackets is no element; a comma behind the only element changes nothing. */
  lemma OneElement(x: string)
    requires Plain(x)
    ensures Parse("[" + x + "]")
         == if x == "" then Ok(List([])) else if Parse(x).Ok? then Ok(List([Parse(x).value])) else Throw
    ensures Parse("[" + x + ",]") == if Parse(x).Ok? then Ok(List([Parse(x).value])) else Throw
  {
    PlainPieces(x, ",]");
    BracketedText(x, "]");
    BracketedText(x, ",]");
    OneItem(x, |"[" + x + "]"|);
    OneItem(x, |"[" + x + ",]"|);
    assert [Piece("", x)][..0] == [] && [Piece("", x), Piece("", "")][..1] == [Piece("", x)];
  }
}
