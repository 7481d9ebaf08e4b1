/** Exactly which values printing and parsing preserve. */
module JsonExact {
  import opened Outcomes
  import opened JsonValues
  import opened JsonPrinter
  import opened JsonParser
  import opened JsonScan
  import opened JsonRoundTrip
  import opened ParsedValues
  import opened JsonWeight

  // ----- normalising keeps the weight

  lemma {:induction false} NormKeepsWeight(v: Json)
    requires Distinct(v)
    ensures Net(Comma, Norm(v)) == Net(Comma, v)
    decreases v, 1
  {
    match v {
      case List(items) =>
        NormItemsKeepMass(items);
        if items != [] {
          ItemsMassNet(items);
          ItemsMassNet(NormItems(items));
        }
      case Object(pairs) =>
        NormMembersKeepMass(pairs);
        NormIsPutAll(pairs);
        if pairs != [] {
          MembersMassNet(pairs);
          MembersMassNet(NormMembers(pairs));
        }
      case _ =>
    }
  }

  lemma {:induction false} NormItemsKeepMass(items: seq<Json>)
    requires forall i | 0 <= i < |items| :: Distinct(items[i])
    ensures ItemsMass(NormItems(items)) == ItemsMass(items)
    decreases items, 0
  {
    if items != [] {
      NormKeepsWeight(items[0]);
      NormItemsKeepMass(items[1..]);
      assert NormItems(items)[1..] == NormItems(items[1..]);
    }
  }

  lemma {:induction false} NormMembersKeepMass(pairs: Members)
    requires forall i | 0 <= i < |pairs| :: Distinct(pairs[i].value)
    ensures MembersMass(NormMembers(pairs)) == MembersMass(pairs)
    decreases pairs, 0
  {
    if pairs != [] {
      NormKeepsWeight(pairs[0].value);
      NormMembersKeepMass(pairs[1..]);
      assert NormMembers(pairs)[1..] == NormMembers(pairs[1..]);
    }
  }

  lemma NormIsPutAll(pairs: Members)
    requires DistinctKeys(pairs)
    ensures PutAll([], NormMembers(pairs)) == NormMembers(pairs)
  {
    NormMembersAt(pairs);
    assert [] + NormMembers(pairs) == NormMembers(pairs);
    PutAllDistinct([], NormMembers(pairs));
  }

  // ----- strings

  /** The result `r` is `s` and then the result `u`, if all of `s` survives, and else departs from `s`. */
  ghost predicate Continues(r: Result<string>, s: string, u: Result<string>) {
    r.Ok? ==> if Printable(s) then u.Ok? && r.value == s + u.value else !(s <= r.value)
  }

  lemma ContinuesStep(s: string, r: Result<string>, u: Result<string>)
    requires s != "" && !LostControl(s[0]) && Continues(r, s[1..], u)
    ensures Continues(Prepend([s[0]], r), s, u)
  {
    assert s == [s[0]] + s[1..];
    if r.Ok? {
      if Printable(s[1..]) {
        assert [s[0]] + (s[1..] + u.value) == s + u.value;
      } else {
        HeadAndTail(s, r.value);
      }
    }
  }

  lemma ContinuesLost(s: string, r: Result<string>, u: Result<string>)
    requires s != "" && LostControl(s[0]) && DiffersAt(r, s[0])
    ensures Continues(r, s, u)
  {
    assert s[0] in s;
  }

  lemma HeadAndTail(s: string, t: string)
    requires s != ""
    ensures s <= [s[0]] + t <==> s[1..] <= t
  {
    assert s == [s[0]] + s[1..];
    if s <= [s[0]] + t {
      assert s[1..] == ([s[0]] + t)[1..|s|];
    }
  }

  /** Text after a printed string is added to it, if all of the string survives. */
  lemma {:induction false} UnescapeMore(s: string, more: string)
    ensures Continues(Unescape(Escape(s) + more), s, Unescape(more))
  {
    if s == "" {
      assert Escape(s) + more == more;
      assert Unescape(more).Ok? ==> s + Unescape(more).value == Unescape(more).value;
    } else {
      var rest := Escape(s[1..]) + more;
      assert Escape(s) + more == EscapeChar(s[0]) + rest;
      UnescapeMore(s[1..], more);
      UnescapeUnit(s[0], rest);
      if LostControl(s[0]) {
        ContinuesLost(s, Unescape(Escape(s) + more), Unescape(more));
      } else {
        ContinuesStep(s, Unescape(rest), Unescape(more));
      }
    }
  }

  lemma LongBody(name: string, w: string)
    ensures Unescape(Escape(name) + ("\"" + w)) != Ok(name)
  {
    UnescapeMore(name, "\"" + w);
    assert ("\"" + w)[1..] == w;
  }

  lemma {:induction false} TrimRightKeeps(a: string, z: string)
    requires a != "" && !IsSpace(a[|a| - 1])
    ensures a <= TrimRight(a + z)
    decreases |z|
  {
    if z == "" {
      assert a + z == a;
    } else {
      var k := |z| - 1;
      assert (a + z)[..|a + z| - 1] == a + z[..k];
      TrimRightKeeps(a, z[..k]);
    }
  }

  lemma ParsesInside(s: string, t: string)
    requires Strip(s) == t && |t| > 1 && t[0] == '\"'
    ensures Parse(s) == match Unescape(t[1..|t| - 1]) case Ok(r) => Ok(Str(r)) case Throw => Throw
  {
  }

  /** A printed name with the colon and more text behind it is not read as the name. */
  lemma LongName(name: string, pre: string, z: string)
    requires AllSpace(pre)
    ensures var r := Parse(pre + (Quote(name) + ":" + z)); r.Ok? ==> StringOf(r.value) != name
  {
    var a := Quote(name) + ":";
    TrimLeftParts(pre, a + z);
    assert TrimLeft(a + z) == a + z;
    TrimRightKeeps(a, z);
    LongNameParsed(name, pre + (a + z));
  }

  lemma LongNameParsed(name: string, s: string)
    requires Quote(name) + ":" <= Strip(s)
    ensures Parse(s).Ok? ==> StringOf(Parse(s).value) != name
  {
    var a, t := Quote(name) + ":", Strip(s);
    ParsesInside(s, t);
    LongNameText(name, t);
    LongBody(name, (":" + t[|a|..])[..|t| - |a|]);
  }

  lemma InsideOf(e: string, r: string)
    ensures var t := "\"" + e + "\"" + ":" + r;
            t[1..|t| - 1] == e + ("\"" + (":" + r)[..|r|])
  {
    var t := "\"" + e + "\"" + ":" + r;
    var u := e + ("\"" + (":" + r));
    assert t == "\"" + u;
    assert t[1..|t| - 1] == u[..|u| - 1];
    assert (":" + r)[..|r|] == (":" + r)[..|":" + r| - 1];
  }

  lemma LongNameText(name: string, t: string)
    requires Quote(name) + ":" <= t
    ensures var a := Quote(name) + ":";
            t[1..|t| - 1] == Escape(name) + ("\"" + (":" + t[|a|..])[..|t| - |a|])
  {
    var a := Quote(name) + ":";
    var r := t[|a|..];
    assert t == a + r;
    assert t == "\"" + Escape(name) + "\"" + ":" + r;
    InsideOf(Escape(name), r);
  }

  // ----- a text of white space and a value

  lemma SpaceIsUnmarked(s: string)
    requires AllSpace(s)
    ensures Unmarked(s)
  {
    SpaceIsPlain(s);
    PlainIsUnmarked(s);
  }

  /** If white space and the printed value come back as the value, it is one of the exact ones. */
  lemma {:induction false} OnlyExact(v: Json, d: nat, pre: string, post: string)
    requires Typed(v) && Distinct(v) && AllSpace(pre) && AllSpace(post)
    requires Parse(pre + Pretty(v, d) + post) == Ok(Norm(v))
    ensures Exact(v)
    decreases v, 3
  {
    match v {
      case List(items) =>
        StripPretty(v, d, pre, post);
        OnlyExactList(items, d);
      case Object(pairs) =>
        StripPretty(v, d, pre, post);
        NormIsPutAll(pairs);
        OnlyExactObject(pairs, d);
      case _ =>
        OnlyExactScalar(v, d, pre, post);
    }
  }

  lemma StripPretty(v: Json, d: nat, pre: string, post: string)
    requires AllSpace(pre) && AllSpace(post) && !v.Double? && !v.Enum?
    ensures Strip(pre + Pretty(v, d) + post) == Pretty(v, d) && Pretty(v, d) != ""
  {
    PrettyEnds(v, d);
    StripParts(pre, Pretty(v, d), post);
  }

  lemma OnlyExactScalar(v: Json, d: nat, pre: string, post: string)
    requires Typed(v) && AllSpace(pre) && AllSpace(post) && !v.List? && !v.Object?
    requires Parse(pre + Pretty(v, d) + post) == Ok(Norm(v))
    ensures Exact(v)
  {
    if v.Enum? && !(-1 <= v.code <= 1) {
      BlankIsZero(pre + "" + post);
    } else if v.Str? {
      StripPretty(v, d, pre, post);
      assert Quote(v.s)[1..|Quote(v.s)| - 1] == Escape(v.s);
      StringRoundTrip(v.s);
    }
  }

  // ----- lists

  lemma {:induction false} OnlyExactList(items: seq<Json>, d: nat)
    requires Typed(List(items)) && Distinct(List(items))
    requires var t := Pretty(List(items), d);
             ParseItems(InnerItems(t), |t|) == Ok(NormItems(items))
    ensures items != [] && ExactItems(items)
    decreases items, 2
  {
    var t, st := Pretty(List(items), d), Start(true).Push(NewLine(d + 1));
    NewLineIsPlain(d + 1);
    InnerText("[", PrettyItems(items, d + 1), "]", d, true);
    if items == [] {
      EmptyPieces(d);
      ItemsWeight(InnerItems(t), |t|);
    } else {
      ListIsTight(items, d);
      OnlyExactItems(items, d + 1, d, st, |t|);
    }
  }

  lemma EmptyPieces(d: nat)
    ensures |ListPieces(PrettyItems([], d + 1) + (NewLine(d) + "]"), Start(true).Push(NewLine(d + 1)))| == 1
  {
    assert PrettyItems([], d + 1) + (NewLine(d) + "]") == NewLine(d) + "]";
    LastPiece(d, "]", Start(true).Push(NewLine(d + 1)));
  }

  /** The text of a list has no weight to spare, so no piece is dropped. */
  lemma ListIsTight(items: seq<Json>, d: nat)
    requires items != [] && Distinct(List(items))
    requires var t := Pretty(List(items), d);
             ParseItems(InnerItems(t), |t|) == Ok(NormItems(items))
    ensures var t := Pretty(List(items), d); InnerItems(t) == Inner(t) && SumWeight(Inner(t)) <= ItemsMass(items)
  {
    var t := Pretty(List(items), d);
    PrettyCount(List(items), d);
    InnerWeight(t);
    ItemsMassNet(items);
    NormItemsKeepMass(items);
    ItemsWeight(InnerItems(t), |t|);
    DropWeight(Inner(t));
  }

  /** The first piece weighs what the first element weighs, and the others what the others weigh. */
  lemma TightItems(ps: seq<Piece>, items: seq<Json>, n: nat)
    requires items != [] && Distinct(List(items)) && Short(ps, n)
    requires ParseItems(ps, n) == Ok(NormItems(items)) && SumWeight(ps) <= ItemsMass(items)
    ensures ps != [] && Short(ps[1..], n)
    ensures Parse(ps[0].text) == Ok(Norm(items[0])) && Weight(ps[0].text) == Net(Comma, items[0])
    ensures ParseItems(ps[1..], n) == Ok(NormItems(items[1..])) && SumWeight(ps[1..]) <= ItemsMass(items[1..])
  {
    ItemsWeight(ps, n);
    assert ps != [];
    var r := ParseItems(ps, n).value;
    assert r[0] == Norm(items[0]) && r[1..] == NormItems(items[1..]);
    assert r[1..] == ParseItems(ps[1..], n).value;
    ParsedWeight(ps[0].text);
    ItemsWeight(ps[1..], n);
    NormKeepsWeight(items[0]);
    NormItemsKeepMass(items[1..]);
  }

  /** The list loop stands before `items`, and what it makes of them is `items`, with no weight to spare. */
  ghost predicate ItemsCome(items: seq<Json>, d: nat, e: nat, st: Scan, n: nat) {
    var ps := Pieces(PrettyItems(items, d) + (NewLine(e) + "]"), st);
    && AtElement(st) && Short(ps, n)
    && ParseItems(ps, n) == Ok(NormItems(items)) && SumWeight(ps) <= ItemsMass(items)
  }

  lemma LastItemComes(items: seq<Json>, d: nat, e: nat, st: Scan, n: nat)
    requires |items| == 1 && Distinct(List(items)) && ItemsCome(items, d, e, st, n)
    ensures Hidden(items[0], 0, 0, true)
    ensures Parse(st.text + Pretty(items[0], d) + NewLine(e)) == Ok(Norm(items[0]))
  {
    var ps := Pieces(PrettyItems(items, d) + (NewLine(e) + "]"), st);
    TightItems(ps, items, n);
    FirstElementWhole(items, d, e, st);
    LastElement(items, d, e, st);
  }

  lemma NextItemsCome(items: seq<Json>, d: nat, e: nat, st: Scan, n: nat)
    requires |items| > 1 && Distinct(List(items)) && ItemsCome(items, d, e, st, n)
    ensures Hidden(items[0], 0, 0, true) && Closed(items[0])
    ensures Parse(st.text + Pretty(items[0], d) + "") == Ok(Norm(items[0]))
    ensures ItemsCome(items[1..], d, e, st.Fresh().Push(NewLine(d)), n)
  {
    var ps := Pieces(PrettyItems(items, d) + (NewLine(e) + "]"), st);
    TightItems(ps, items, n);
    FirstElementWhole(items, d, e, st);
    NextPieces(items, d, e, st);
    NewLineIsPlain(d);
    assert st.text + Pretty(items[0], d) + "" == st.text + Pretty(items[0], d);
  }

  lemma {:induction false} OnlyExactItems(items: seq<Json>, d: nat, e: nat, st: Scan, n: nat)
    requires items != [] && Typed(List(items)) && Distinct(List(items)) && ItemsCome(items, d, e, st, n)
    ensures ExactItems(items)
    decreases items, 0
  {
    if |items| == 1 {
      LastItemComes(items, d, e, st, n);
      NewLineIsPlain(e);
      OnlyExact(items[0], d, st.text, NewLine(e));
    } else {
      NextItemsCome(items, d, e, st, n);
      OnlyExact(items[0], d, st.text, "");
      OnlyExactItems(items[1..], d, e, st.Fresh().Push(NewLine(d)), n);
    }
  }

  /** A first piece of the weight of the first element is the element, neither less nor more. */
  lemma {:induction false} FirstElementWhole(items: seq<Json>, d: nat, e: nat, st: Scan)
    requires items != [] && AtElement(st)
    requires Weight(Pieces(PrettyItems(items, d) + (NewLine(e) + "]"), st)[0].text) == Net(Comma, items[0])
    ensures Hidden(items[0], 0, 0, true)
    ensures |items| > 1 ==> Closed(items[0])
  {
    var head := Pretty(items[0], d);
    var y := if |items| == 1 then NewLine(e) + "]"
             else Separator(d) + (PrettyItems(items[1..], d) + (NewLine(e) + "]"));
    assert PrettyItems(items, d) + (NewLine(e) + "]") == head + y;
    SpaceIsUnmarked(st.text);
    ValueIsWhole(items[0], d, y, st);
    if |items| > 1 && !Closed(items[0]) {
      MissedSeparator(items[0], d, PrettyItems(items[1..], d) + (NewLine(e) + "]"), st);
    }
  }

  /** A piece that ends inside a value is too light. */
  lemma ValueIsWhole(v: Json, d: nat, y: string, st: Scan)
    requires !st.naming && !st.quoted && Unmarked(st.text) && y != ""
    requires Weight(Pieces(Pretty(v, d) + y, st)[0].text) >= Net(Comma, v)
    ensures Hidden(v, st.objs, st.lists, st.list)
  {
    QuietPretty(v, d, st.list, st.objs, st.lists);
    PrettyCount(v, d);
    if !Hidden(v, st.objs, st.lists, st.list) {
      CutIsLighter(Pretty(v, d), y, st);
    }
  }

  /** A stretch of text and the comma after it, both taken. */
  lemma StretchAndComma(x: string, d: nat, rest: string, st: Scan)
    requires !st.naming && !st.quoted && rest != ""
    requires Whole(x) && !Odd(x) && QuietFrom(x, st)
    requires !(st.objs + Count(Brace, x) == 0 && st.lists + Count(Square, x) == 0)
    ensures st.text + x + "," <= Pieces(x + (Separator(d) + rest), st)[0].text
  {
    StretchRead(x, Count(Brace, x), Count(Square, x), Separator(d) + rest, st);
    CommaRead(d, rest, Past(x, Count(Brace, x), Count(Square, x), st));
  }

  lemma StretchMissed(x: string, d: nat, rest: string, st: Scan)
    requires !st.naming && !st.quoted && Unmarked(st.text) && rest != ""
    requires Whole(x) && !Odd(x) && QuietFrom(x, st)
    requires !(st.objs + Count(Brace, x) == 0 && st.lists + Count(Square, x) == 0)
    ensures Weight(Pieces(x + (Separator(d) + rest), st)[0].text) > Weight(x)
  {
    StretchAndComma(x, d, rest, st);
    CommaWeighs(st.text, x, Pieces(x + (Separator(d) + rest), st)[0].text);
  }

  /** A piece that runs past the separator is too heavy. */
  lemma MissedSeparator(v: Json, d: nat, rest: string, st: Scan)
    requires !st.naming && !st.quoted && Unmarked(st.text) && rest != ""
    requires Hidden(v, st.objs, st.lists, st.list)
    requires !(st.objs + Net(Brace, v) == 0 && st.lists + Net(Square, v) == 0)
    ensures Weight(Pieces(Pretty(v, d) + (Separator(d) + rest), st)[0].text) > Net(Comma, v)
  {
    QuietPretty(v, d, st.list, st.objs, st.lists);
    PrettyCount(v, d);
    StretchMissed(Pretty(v, d), d, rest, st);
  }

  lemma CommaWeighs(pre: string, x: string, q: string)
    requires Unmarked(pre) && Whole(x) && pre + x + "," <= q
    ensures Weight(q) > Weight(x)
  {
    CountConcat(pre, x);
    ByteCount(',');
    CountConcat(pre + x, ",");
    PrefixWeight(pre + x + ",", q);
  }

  lemma CommaRead(d: nat, rest: string, st: Scan)
    requires !st.naming && !(st.objs == 0 && st.lists == 0) && rest != ""
    ensures st.text + "," <= Pieces(Separator(d) + rest, st)[0].text
  {
    var y := Separator(d) + rest;
    assert y == [','] + (NewLine(d) + rest) && y[1..] == NewLine(d) + rest;
    assert st.Seen(',', ',') == st;
    TextGrows(NewLine(d) + rest, st.Push(","));
  }

  // ----- objects

  lemma {:induction false} OnlyExactObject(pairs: Members, d: nat)
    requires Typed(Object(pairs)) && Distinct(Object(pairs))
    requires var t := Pretty(Object(pairs), d);
             ParseMembers(Inner(t), [], |t|) == Ok(NormMembers(pairs))
    ensures pairs != [] && ExactMembers(pairs)
    decreases pairs, 2
  {
    var t := Pretty(Object(pairs), d);
    NewLineIsPlain(d + 1);
    InnerText("{", PrettyMembers(pairs, d + 1), "}", d, false);
    if pairs == [] {
      ObjectHasMember(Inner(t), [], |t|);
    } else {
      ObjectIsTight(pairs, d);
      assert [] + NormMembers(pairs) == NormMembers(pairs);
      OnlyExactMembers(pairs, d + 1, d, AtNext(d + 1), [], |t|);
    }
  }

  lemma ObjectIsTight(pairs: Members, d: nat)
    requires pairs != []
    ensures SumWeight(Inner(Pretty(Object(pairs), d))) <= MembersMass(pairs)
  {
    PrettyCount(Object(pairs), d);
    InnerWeight(Pretty(Object(pairs), d));
    MembersMassNet(pairs);
  }

  lemma {:induction false} ObjectHasMember(ps: seq<Piece>, acc: Members, n: nat)
    requires Short(ps, n) && ParseMembers(ps, acc, n).Ok?
    ensures |ParseMembers(ps, acc, n).value| >= |acc|
    ensures ps != [] ==> ParseMembers(ps, acc, n).value != []
    decreases |ps|
  {
    if ps != [] {
      var p := FirstMember(ps[0]);
      ObjectHasMember(ps[1..], Put(acc, p.name, p.value), n);
    }
  }

  /** The first piece makes the first member and has its weight, and the others make the others. */
  lemma {:induction false} TightMembers(ps: seq<Piece>, pairs: Members, acc: Members, n: nat)
    requires pairs != [] && Short(ps, n) && (forall i | 0 <= i < |pairs| :: Distinct(pairs[i].value))
    requires ParseMembers(ps, acc, n) == Ok(acc + NormMembers(pairs)) && SumWeight(ps) <= MembersMass(pairs) && ps != []
    ensures var m := Member(pairs[0].name, Norm(pairs[0].value));
            && Parse(ps[0].name).Ok? && StringOf(Parse(ps[0].name).value) == m.name
            && Parse(ps[0].text) == Ok(m.value)
            && Weight(ps[0].text) == Net(Comma, pairs[0].value)
            && ParseMembers(ps[1..], acc + [m], n) == Ok(acc + [m] + NormMembers(pairs[1..]))
            && SumWeight(ps[1..]) <= MembersMass(pairs[1..])
  {
    var p := FirstMember(ps[0]);
    TightFirst(ps, pairs, acc, n);
    NormKeepsWeight(pairs[0].value);
    assert NormMembers(pairs) == [p] + NormMembers(pairs[1..]);
    assert acc + ([p] + NormMembers(pairs[1..])) == acc + [p] + NormMembers(pairs[1..]);
    TightRest(ps, pairs, p);
  }

  lemma {:induction false} TightFirst(ps: seq<Piece>, pairs: Members, acc: Members, n: nat)
    requires pairs != [] && Short(ps, n) && (forall i | 0 <= i < |pairs| :: Distinct(pairs[i].value))
    requires ParseMembers(ps, acc, n) == Ok(acc + NormMembers(pairs)) && SumWeight(ps) <= MembersMass(pairs) && ps != []
    ensures Parse(ps[0].name).Ok? && Parse(ps[0].text).Ok?
    ensures var p := FirstMember(ps[0]);
            && p == Member(pairs[0].name, Norm(pairs[0].value))
            && Weight(ps[0].name) == StrNet(Comma, p.name) && Weight(ps[0].text) == Net(Comma, p.value)
            && ParseMembers(ps[1..], acc + [p], n) == Ok(acc + NormMembers(pairs))
  {
    var r := acc + NormMembers(pairs);
    MembersMassConcat(acc, NormMembers(pairs));
    NormMembersKeepMass(pairs);
    TightStep(ps, acc, n, r);
    var p := FirstMember(ps[0]);
    TightKeeps(ps[1..], acc + [p], n, r);
    assert p == (acc + [p])[|acc|] == r[|acc|] == NormMembers(pairs)[0];
  }

  lemma TightRest(ps: seq<Piece>, pairs: Members, p: Member)
    requires pairs != [] && ps != [] && SumWeight(ps) <= MembersMass(pairs)
    requires Weight(ps[0].name) == StrNet(Comma, p.name) && Weight(ps[0].text) == Net(Comma, p.value)
    requires p.name == pairs[0].name && Net(Comma, p.value) == Net(Comma, pairs[0].value)
    ensures SumWeight(ps[1..]) <= MembersMass(pairs[1..])
  {
  }

  /** The object loop stands before `pairs`, and what it adds to `acc` is `pairs`, with no weight to spare. */
  ghost predicate MembersCome(pairs: Members, d: nat, e: nat, st: Scan, acc: Members, n: nat) {
    var ps := Pieces(PrettyMembers(pairs, d) + (NewLine(e) + "}"), st);
    && AtName(st) && Short(ps, n)
    && ParseMembers(ps, acc, n) == Ok(acc + NormMembers(pairs)) && SumWeight(ps) <= MembersMass(pairs)
  }

  /** The name and the value of `p` are read from the right stretch of text. */
  ghost predicate MemberComes(p: Member, d: nat, pre: string, post: string) {
    && StrNet(Brace, p.name) == 0 && Hidden(p.value, 0, StrNet(Square, p.name), false)
    && Parse(pre + Quote(p.name)).Ok? && StringOf(Parse(pre + Quote(p.name)).value) == p.name
    && Parse(" " + Pretty(p.value, d) + post) == Ok(Norm(p.value))
  }

  lemma LastMemberComes(pairs: Members, d: nat, e: nat, st: Scan, acc: Members, n: nat)
    requires |pairs| == 1 && Distinct(pairs[0].value) && MembersCome(pairs, d, e, st, acc, n)
    ensures MemberComes(pairs[0], d, st.name, NewLine(e))
  {
    var p, tail := pairs[0], NewLine(e) + "}";
    assert PrettyMembers(pairs, d) + tail == PrettyMember(p, d) + tail;
    TightMembers(Pieces(PrettyMember(p, d) + tail, st), pairs, acc, n);
    FirstMemberWhole(p, d, tail, st);
    LastMemberPieces(p, d, e, st);
  }

  lemma NextMembersCome(pairs: Members, d: nat, e: nat, st: Scan, acc: Members, n: nat)
    requires |pairs| > 1 && (forall i | 0 <= i < |pairs| :: Distinct(pairs[i].value))
    requires MembersCome(pairs, d, e, st, acc, n)
    ensures MemberComes(pairs[0], d, st.name, "") && ClosedMember(pairs[0])
    ensures MembersCome(pairs[1..], d, e, AtNext(d), acc + [Member(pairs[0].name, Norm(pairs[0].value))], n)
  {
    var p, rest := pairs[0], PrettyMembers(pairs[1..], d) + (NewLine(e) + "}");
    MoreMembersText(pairs, d, NewLine(e) + "}");
    var ps := Pieces(PrettyMember(p, d) + (Separator(d) + rest), st);
    TightMembers(ps, pairs, acc, n);
    FirstMemberWhole(p, d, Separator(d) + rest, st);
    FirstMemberClosed(p, d, rest, st);
    NextMemberPieces(p, d, rest, st);
    assert ps[1..] == Pieces(rest, AtNext(d));
    assert " " + Pretty(p.value, d) + "" == " " + Pretty(p.value, d);
    NewLineIsPlain(d);
  }

  lemma {:induction false} OnlyExactMembers(pairs: Members, d: nat, e: nat, st: Scan, acc: Members, n: nat)
    requires pairs != [] && Typed(Object(pairs)) && MembersCome(pairs, d, e, st, acc, n)
    requires forall i | 0 <= i < |pairs| :: Distinct(pairs[i].value)
    ensures ExactMembers(pairs)
    decreases pairs, 0
  {
    if |pairs| == 1 {
      LastMemberComes(pairs, d, e, st, acc, n);
      NewLineIsPlain(e);
      OnlyExactMember(pairs[0], d, st.name, NewLine(e));
    } else {
      NextMembersCome(pairs, d, e, st, acc, n);
      OnlyExactMember(pairs[0], d, st.name, "");
      OnlyExactMembers(pairs[1..], d, e, AtNext(d), acc + [Member(pairs[0].name, Norm(pairs[0].value))], n);
    }
  }

  /** A first piece with the name and the weight of the first member holds all of it. */
  lemma FirstMemberWhole(p: Member, d: nat, y: string, st: Scan)
    requires AtName(st) && y != ""
    requires var q := Pieces(PrettyMember(p, d) + y, st)[0];
             && Parse(q.name).Ok? && StringOf(Parse(q.name).value) == p.name
             && Weight(q.text) == Net(Comma, p.value)
    ensures StrNet(Brace, p.name) == 0 && Hidden(p.value, 0, StrNet(Square, p.name), false)
  {
    var z := Pretty(p.value, d) + y;
    MemberText(p, d, y);
    NameRead(p.name, [':'] + (" " + z), st);
    if StrNet(Brace, p.name) != 0 {
      ColonMissed(p.name, z, st);
    } else {
      ColonRead(p.name, z, st);
      SpaceIsUnmarked(" ");
      ValueIsWhole(p.value, d, y, BeforeValue(p.name, st));
    }
  }

  /** A colon inside braces, in a name. */
  lemma ColonTaken(y: string, a: Scan)
    requires !a.list && a.naming && !a.quoted && a.objs != 0 && y != ""
    ensures a.name + ":" <= Pieces([':'] + (" " + y), a)[0].name
  {
    assert ([':'] + (" " + y))[1..] == " " + y;
    assert a.Seen(':', ':') == a;
    NameGrows(" " + y, a.Push([':']));
  }

  /** After a name whose braces do not close each other the colon is taken for a part of the name. */
  lemma ColonMissed(name: string, y: string, st: Scan)
    requires AtName(st) && StrNet(Brace, name) != 0 && y != ""
    ensures var r := Parse(Pieces([':'] + (" " + y), PastName(name, st))[0].name); r.Ok? ==> StringOf(r.value) != name
  {
    var q := Pieces([':'] + (" " + y), PastName(name, st))[0].name;
    ColonTaken(y, PastName(name, st));
    NameTooLong(name, st.name, q);
  }

  lemma NameTooLong(name: string, pre: string, q: string)
    requires AllSpace(pre) && pre + Quote(name) + ":" <= q
    ensures Parse(q).Ok? ==> StringOf(Parse(q).value) != name
  {
    var z := q[|pre + Quote(name)| + 1..];
    assert q == pre + Quote(name) + ":" + z;
    assert q == pre + (Quote(name) + ":" + z);
    LongName(name, pre, z);
  }

  lemma FirstMemberClosed(p: Member, d: nat, rest: string, st: Scan)
    requires AtName(st) && rest != ""
    requires StrNet(Brace, p.name) == 0 && Hidden(p.value, 0, StrNet(Square, p.name), false)
    requires Weight(Pieces(PrettyMember(p, d) + (Separator(d) + rest), st)[0].text) == Net(Comma, p.value)
    ensures ClosedMember(p)
  {
    var y := Separator(d) + rest;
    MemberText(p, d, y);
    NameAndColonRead(p.name, Pretty(p.value, d) + y, st);
    SpaceIsUnmarked(" ");
    if !ClosedMember(p) {
      MissedSeparator(p.value, d, rest, BeforeValue(p.name, st));
    }
  }

  lemma {:induction false} OnlyExactMember(p: Member, d: nat, pre: string, post: string)
    requires Typed(p.value) && Distinct(p.value) && AllSpace(pre) && AllSpace(post)
    requires MemberComes(p, d, pre, post)
    ensures ExactMember(p)
    decreases p, 4
  {
    NameIsPrintable(p.name, pre);
    OnlyExact(p.value, d, " ", post);
  }

  lemma QuoteParses(s: string, pre: string)
    requires AllSpace(pre)
    ensures Parse(pre + Quote(s)) == match Unescape(Escape(s)) case Ok(r) => Ok(Str(r)) case Throw => Throw
  {
    assert pre + Quote(s) + "" == pre + Quote(s);
    StripParts(pre, Quote(s), "");
    ParsesInside(pre + Quote(s), Quote(s));
    assert Quote(s)[1..|Quote(s)| - 1] == Escape(s);
  }

  lemma NameIsPrintable(name: string, pre: string)
    requires AllSpace(pre)
    requires Parse(pre + Quote(name)).Ok? && StringOf(Parse(pre + Quote(name)).value) == name
    ensures Printable(name)
  {
    QuoteParses(name, pre);
    StringRoundTrip(name);
  }

  // ----- the law, exactly

  /** For values whose objects have distinct names, `parse(get_repr(v))` is `v` exactly on `Exact`. */
  lemma RoundTripExactly(v: Json)
    requires Typed(v) && Distinct(v)
    ensures Parse(Repr(v)) == Ok(Norm(v)) <==> Exact(v)
  {
    if Exact(v) {
      RoundTrip(v);
    } else if Parse(Repr(v)) == Ok(Norm(v)) {
      ReprIsPretty(v);
      assert "" + Pretty(v, 0) + "" == Pretty(v, 0);
      OnlyExact(v, 0, "", "");
    }
  }

  /** Not even the type of an integer changes exactly when no long integer is in the range of the short ones. */
  lemma UnchangedExactly(v: Json)
    requires Typed(v) && Distinct(v)
    ensures Parse(Repr(v)) == Ok(v) <==> Exact(v) && Norm(v) == v
  {
    RoundTripExactly(v);
    ParsedIsNormal(Repr(v));
  }

  // ----- a second trip

  /** A normalised value prints as the value does. */
  lemma {:induction false} NormPrintsAlike(v: Json, d: nat)
    requires Distinct(v)
    ensures Pretty(Norm(v), d) == Pretty(v, d)
    decreases v, 1
  {
    match v {
      case List(items) =>
        NormItemsPrintAlike(items, d + 1);
      case Object(pairs) =>
        NormIsPutAll(pairs);
        NormMembersPrintAlike(pairs, d + 1);
      case _ =>
    }
  }

  lemma {:induction false} NormItemsPrintAlike(items: seq<Json>, d: nat)
    requires forall i | 0 <= i < |items| :: Distinct(items[i])
    ensures PrettyItems(NormItems(items), d) == PrettyItems(items, d)
    decreases items, 0
  {
    if items != [] {
      NormItemsAt(items);
      NormPrintsAlike(items[0], d);
      NormItemsPrintAlike(items[1..], d);
      assert NormItems(items)[1..] == NormItems(items[1..]);
    }
  }

  lemma {:induction false} NormMembersPrintAlike(pairs: Members, d: nat)
    requires forall i | 0 <= i < |pairs| :: Distinct(pairs[i].value)
    ensures PrettyMembers(NormMembers(pairs), d) == PrettyMembers(pairs, d)
    decreases pairs, 0
  {
    if pairs != [] {
      NormMembersAt(pairs);
      NormPrintsAlike(pairs[0].value, d);
      NormMembersPrintAlike(pairs[1..], d);
      assert NormMembers(pairs)[1..] == NormMembers(pairs[1..]);
    }
  }

  /** What came back once comes back unchanged ever after, and the text is the same from the start. */
  lemma SecondTrip(v: Json)
    requires Typed(v) && Distinct(v)
    ensures Repr(Norm(v)) == Repr(v)
    ensures Exact(v) ==> Parse(Repr(Norm(v))) == Ok(Norm(v))
  {
    ReprIsPretty(v);
    ReprIsPretty(Norm(v));
    NormPrintsAlike(v, 0);
    RoundTripExactly(v);
  }

  // ----- values that do not come back

  /** A bracket in the string of a member that is not the last. */
  lemma OpenBracketInString()
    ensures var v := Object([Member("a", Str("[")), Member("b", Int(1))]);
            Typed(v) && Distinct(v) && Parse(Repr(v)) != Ok(Norm(v))
  {
    var p := [Member("a", Str("[")), Member("b", Int(1))];
    assert "["[1..] == "" && StrNet(Square, "[") == 1;
    assert "a"[1..] == "" && StrNet(Square, "a") == 0;
    assert !ClosedMember(p[0]);
    RoundTripExactly(Object(p));
  }

  /** A comma in a string that is an element of a list. */
  lemma CommaInElement()
    ensures var v := List([Str("a,b")]);
            Typed(v) && Distinct(v) && Parse(Repr(v)) != Ok(Norm(v))
  {
    var s := "a,b";
    assert s[1..][0] == ',';
    assert !CommasInside(s[1..], 0, 0);
    assert !Hidden(Str(s), 0, 0, true);
    RoundTripExactly(List([Str(s)]));
  }
}
