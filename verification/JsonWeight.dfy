/** Parsing never gains weight: every comma of a parsed value is a comma of the text. */
module JsonWeight {
  import opened Outcomes
  import opened JsonValues
  import opened JsonParser
  import opened JsonScan
  import opened JsonRoundTrip

  // ----- strings

  lemma {:induction false} StrNetConcat(m: Mark, a: string, b: string)
    ensures StrNet(m, a + b) == StrNet(m, a) + StrNet(m, b)
  {
    if a == "" {
      assert a + b == b;
    } else {
      assert (a + b)[1..] == a[1..] + b;
      StrNetConcat(m, a[1..], b);
    }
  }

  lemma MeaningWeight(s: string)
    requires |s| > 1 && s[0] == '\\' && EscapeMeaning(s).Ok?
    ensures StrNet(Comma, EscapeMeaning(s).value) <= UnitCount(Comma, '\\', s[1])
  {
    var r := EscapeMeaning(s).value;
    if r != "" {
      assert r[1..] == "";
    }
  }

  lemma {:induction false} UnescapeWeight(s: string)
    ensures Unescape(s).Ok? ==> StrNet(Comma, Unescape(s).value) <= Weight(s)
    decreases |s|
  {
    if s != "" && Unescape(s).Ok? {
      if s[0] == '\\' {
        UnescapeWeight(if |s| == 1 then "" else s[2..]);
        var head, rest := EscapeMeaning(s).value, Unescape(if |s| == 1 then "" else s[2..]).value;
        StrNetConcat(Comma, head, rest);
        if |s| == 1 {
          assert head + rest == "\\";
        } else {
          MeaningWeight(s);
          assert Rest(s) == s[2..];
        }
      } else {
        UnescapeWeight(s[1..]);
        assert Rest(s) == s[1..];
        assert ([s[0]] + Unescape(s[1..]).value)[1..] == Unescape(s[1..]).value;
      }
    }
  }

  lemma {:induction false} TrimLeftWeight(s: string)
    ensures Weight(TrimLeft(s)) == Weight(s)
  {
    if s != "" && IsSpace(s[0]) {
      TrimLeftWeight(s[1..]);
      assert Rest(s) == s[1..];
    }
  }

  lemma {:induction false} TrimRightPrefix(s: string)
    ensures TrimRight(s) <= s
  {
    if s != "" && IsSpace(s[|s| - 1]) {
      TrimRightPrefix(s[..|s| - 1]);
    }
  }

  lemma StripWeight(s: string)
    ensures Weight(Strip(s)) <= Weight(s)
  {
    TrimLeftWeight(s);
    TrimRightPrefix(TrimLeft(s));
    PrefixWeight(Strip(s), TrimLeft(s));
  }

  lemma QuotedWeight(t: string)
    requires |t| > 1 && t[0] == '\"'
    ensures Weight(t[1..|t| - 1]) <= Weight(t)
  {
    assert Rest(t) == t[1..];
    PrefixWeight(t[1..|t| - 1], t[1..]);
  }

  // ----- containers, with one for each part

  function ItemsMass(items: seq<Json>): nat {
    if items == [] then 0 else 1 + Net(Comma, items[0]) + ItemsMass(items[1..])
  }

  function MembersMass(pairs: Members): nat {
    if pairs == [] then 0 else 1 + NetMember(Comma, pairs[0]) + MembersMass(pairs[1..])
  }

  lemma {:induction false} ItemsMassNet(items: seq<Json>)
    requires items != []
    ensures ItemsMass(items) == 1 + NetItems(Comma, items)
  {
    if |items| > 1 {
      ItemsMassNet(items[1..]);
    }
  }

  lemma {:induction false} MembersMassNet(pairs: Members)
    requires pairs != []
    ensures MembersMass(pairs) == 1 + NetMembers(Comma, pairs)
  {
    if |pairs| > 1 {
      MembersMassNet(pairs[1..]);
    }
  }

  lemma {:induction false} MembersMassConcat(a: Members, b: Members)
    ensures MembersMass(a + b) == MembersMass(a) + MembersMass(b)
  {
    if a == [] {
      assert a + b == b;
    } else {
      assert (a + b)[1..] == a[1..] + b;
      MembersMassConcat(a[1..], b);
    }
  }

  lemma OneMass(p: Member)
    ensures MembersMass([p]) == 1 + NetMember(Comma, p)
  {
    assert [p][1..] == [];
  }

  lemma ReplaceMass(acc: Members, l: nat, p: Member)
    requires l < |acc|
    ensures MembersMass(acc[l := p]) == MembersMass(acc[..l]) + 1 + NetMember(Comma, p) + MembersMass(acc[l + 1..])
  {
    var a, b := acc[..l], acc[l + 1..];
    assert acc[l := p] == a + [p] + b;
    OneMass(p);
    MembersMassConcat(a, [p]);
    MembersMassConcat(a + [p], b);
  }

  /** A member that replaces another of its name adds less than a new one. */
  lemma PutMass(acc: Members, k: string, v: Json)
    ensures var added := 1 + NetMember(Comma, Member(k, v));
            if Has(acc, k) then MembersMass(Put(acc, k, v)) < MembersMass(acc) + added
            else Put(acc, k, v) == acc + [Member(k, v)] && MembersMass(Put(acc, k, v)) == MembersMass(acc) + added
  {
    var l, p := Find(acc, k), Member(k, v);
    if l < |acc| {
      ReplaceMass(acc, l, p);
      ReplaceMass(acc, l, acc[l]);
      assert acc[l := acc[l]] == acc;
    } else {
      OneMass(p);
      MembersMassConcat(acc, [p]);
    }
  }

  // ----- parse

  /** The weight of a parsed value is at most that of the text. */
  lemma {:induction false} ParsedWeight(s: string)
    ensures Parse(s).Ok? ==> Net(Comma, Parse(s).value) <= Weight(s)
    decreases |s|, 2, 0
  {
    var t := Strip(s);
    StripWeight(s);
    if t != "" && Parse(s).Ok? {
      if t[0] == '{' {
        ObjectWeight(t);
      } else if t[0] == '[' {
        ListWeight(t);
      } else if t[0] == '\"' {
        if |t| > 1 {
          QuotedWeight(t);
          UnescapeWeight(t[1..|t| - 1]);
        }
      }
    }
  }

  lemma InnerWeight(t: string)
    requires t != "" && (t[0] == '{' || t[0] == '[')
    ensures SumWeight(Inner(t)) <= 1 + Weight(t)
  {
    assert Rest(t) == t[1..];
    PiecesWeight(t[1..], Start(t[0] == '['));
  }

  lemma {:induction false} ObjectWeight(t: string)
    requires t != "" && t[0] == '{'
    ensures var r := ParseMembers(Inner(t), [], |t|); r.Ok? ==> NetMembers(Comma, r.value) <= Weight(t)
    decreases |t|, 1, 0
  {
    InnerWeight(t);
    MembersWeight(Inner(t), [], |t|);
    var r := ParseMembers(Inner(t), [], |t|);
    if r.Ok? && r.value != [] {
      MembersMassNet(r.value);
    }
  }

  lemma {:induction false} ListWeight(t: string)
    requires t != "" && t[0] == '['
    ensures var r := ParseItems(InnerItems(t), |t|); r.Ok? ==> NetItems(Comma, r.value) <= Weight(t)
    decreases |t|, 1, 0
  {
    InnerWeight(t);
    DropWeight(Inner(t));
    ItemsWeight(InnerItems(t), |t|);
    var r := ParseItems(InnerItems(t), |t|);
    if r.Ok? && r.value != [] {
      ItemsMassNet(r.value);
    }
  }

  lemma {:induction false} ItemsWeight(ps: seq<Piece>, n: nat)
    requires Short(ps, n)
    ensures var r := ParseItems(ps, n); r.Ok? ==> |r.value| == |ps| && ItemsMass(r.value) <= SumWeight(ps)
    decreases n, 0, |ps|
  {
    if ps != [] && ParseItems(ps, n).Ok? {
      ParsedWeight(ps[0].text);
      ItemsWeight(ps[1..], n);
      assert ParseItems(ps, n).value[1..] == ParseItems(ps[1..], n).value;
    }
  }

  lemma {:induction false} MembersWeight(ps: seq<Piece>, acc: Members, n: nat)
    requires Short(ps, n)
    ensures var r := ParseMembers(ps, acc, n); r.Ok? ==> MembersMass(r.value) <= MembersMass(acc) + SumWeight(ps)
    decreases n, 0, |ps|
  {
    if ps != [] && ParseMembers(ps, acc, n).Ok? {
      MemberWeight(ps[0], n);
      var k, v := StringOf(Parse(ps[0].name).value), Parse(ps[0].text).value;
      PutMass(acc, k, v);
      MembersWeight(ps[1..], Put(acc, k, v), n);
    }
  }

  lemma {:induction false} MemberWeight(p: Piece, n: nat)
    requires |p.name| < n && |p.text| < n
    ensures Parse(p.name).Ok? ==> StrNet(Comma, StringOf(Parse(p.name).value)) <= Weight(p.name)
    ensures Parse(p.text).Ok? ==> Net(Comma, Parse(p.text).value) <= Weight(p.text)
    decreases n, 0, 0
  {
    ParsedWeight(p.name);
    ParsedWeight(p.text);
  }

  lemma {:induction false} SumWeightConcat(a: seq<Piece>, b: seq<Piece>)
    ensures SumWeight(a + b) == SumWeight(a) + SumWeight(b)
  {
    if a == [] {
      assert a + b == b;
    } else {
      assert (a + b)[1..] == a[1..] + b;
      SumWeightConcat(a[1..], b);
    }
  }

  lemma DropWeight(ps: seq<Piece>)
    requires |ps| > 0
    ensures SumWeight(DropEmptyLast(ps)) <= SumWeight(ps)
    ensures SumWeight(DropEmptyLast(ps)) == SumWeight(ps) ==> DropEmptyLast(ps) == ps
  {
    var k := |ps| - 1;
    assert ps == ps[..k] + ps[k..] && ps[k..][1..] == [];
    SumWeightConcat(ps[..k], ps[k..]);
  }

  // ----- when nothing is lost

  /** No weight is lost on the way from the pieces to `r`. */
  ghost predicate Tight(ps: seq<Piece>, acc: Members, n: nat, r: Members)
    requires Short(ps, n)
  {
    ParseMembers(ps, acc, n) == Ok(r) && MembersMass(r) >= MembersMass(acc) + SumWeight(ps)
  }

  /** The member that the first piece makes. */
  ghost function FirstMember(p: Piece): Member
    requires Parse(p.name).Ok? && Parse(p.text).Ok?
  {
    Member(StringOf(Parse(p.name).value), Parse(p.text).value)
  }

  /** Then the first piece makes a new member of its own weight. */
  lemma TightStep(ps: seq<Piece>, acc: Members, n: nat, r: Members)
    requires ps != [] && Short(ps, n) && Tight(ps, acc, n, r)
    ensures Parse(ps[0].name).Ok? && Parse(ps[0].text).Ok?
    ensures var p := FirstMember(ps[0]);
            && Weight(ps[0].name) == StrNet(Comma, p.name)
            && Weight(ps[0].text) == Net(Comma, p.value)
            && Tight(ps[1..], acc + [p], n, r)
  {
    var p := FirstMember(ps[0]);
    MemberWeight(ps[0], n);
    PutMass(acc, p.name, p.value);
    MembersWeight(ps[1..], Put(acc, p.name, p.value), n);
  }

  lemma {:induction false} TightKeeps(ps: seq<Piece>, acc: Members, n: nat, r: Members)
    requires Short(ps, n) && Tight(ps, acc, n, r)
    ensures acc <= r
    decreases |ps|
  {
    if ps != [] {
      TightStep(ps, acc, n, r);
      TightKeeps(ps[1..], acc + [FirstMember(ps[0])], n, r);
    }
  }
}
