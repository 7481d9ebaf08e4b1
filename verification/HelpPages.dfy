/** The paging buttons of the help message: `make_help_with_selection`, `parse_hpcid` and the `hp_` branch. */
module HelpPages {
  import opened Numerals
  import opened JsonParser

  /** The page numbers that stand for the first and the last page in a button's id. */
  const FIRST_PAGE := 2147483646
  const LAST_PAGE := 2147483647

  datatype Button = First | Previous | Next | Last

  // ----- the ids of the buttons

  /** What a button's id says after the topic. */
  function PageIn(b: Button, page: int): int {
    match b
    case First => FIRST_PAGE
    case Previous => page - 1
    case Next => page + 1
    case Last => LAST_PAGE
  }

  function CustomId(topic: string, n: int): string {
    "hp_" + topic + "_" + IntText(n)
  }

  predicate Disabled(b: Button, page: int, max: int) {
    (page == 1 && (b.First? || b.Previous?)) || (page == max && (b.Next? || b.Last?))
  }

  datatype Component = Component(id: string, disabled: bool)

  /** The row of four buttons. */
  method MakeButtons(topic: string, page: int, max: int) returns (row: seq<Component>)
    ensures row == seq(4, i requires 0 <= i < 4 =>
                     var b := [First, Previous, Next, Last][i];
                     Component(CustomId(topic, PageIn(b, page)), Disabled(b, page, max)))
  {
    row := [Component(CustomId(topic, FIRST_PAGE), false), Component(CustomId(topic, page - 1), false)];
    if page == 1 {
      row := row[0 := row[0].(disabled := true)];
      row := row[1 := row[1].(disabled := true)];
    }
    row := row + [Component(CustomId(topic, page + 1), false), Component(CustomId(topic, LAST_PAGE), false)];
    if page == max {
      row := row[2 := row[2].(disabled := true)];
      row := row[3 := row[3].(disabled := true)];
    }
  }

  // ----- reading an id back

  /** The white space of `isspace`. */
  predicate IsBlank(c: char) {
    c == ' ' || '\t' <= c <= '\r'
  }

  /** The number whose digits `s` starts with; zero if there are none. */
  function Digits(s: string): nat {
    NatValue(s[..DigitRun(s)])
  }

  /** `atoi`, within the range of an integer. */
  function Atoi(s: string): int {
    if s == "" then 0
    else if IsBlank(s[0]) then Atoi(s[1..])
    else if s[0] == '-' then -(Digits(s[1..]) as int)
    else if s[0] == '+' then Digits(s[1..])
    else Digits(s)
  }

  datatype Place = Place(topic: string, page: int)

  /** The position after the last underscore, or zero. */
  function AfterUnderscore(s: string): (i: nat)
    ensures i <= |s|
    ensures i > 0 ==> s[i - 1] == '_'
    ensures '_' !in s[i..]
  {
    if s == "" || s[|s| - 1] == '_' then |s|
    else
      var i := AfterUnderscore(s[..|s| - 1]);
      assert s[i..] == s[..|s| - 1][i..] + [s[|s| - 1]];
      i
  }

  function ParseId(s: string): Place {
    var i := AfterUnderscore(s);
    if i > 0 then Place(s[..i - 1], Atoi(s[i..])) else Place(s, 1)
  }

  method ParseHpcid(s: string) returns (r: Place)
    ensures r == ParseId(s)
  {
    var l := |s| - 1;
    assert s[..l + 1] == s;
    while l >= 0
      invariant -1 <= l < |s|
      invariant AfterUnderscore(s) == AfterUnderscore(s[..l + 1])
    {
      assert s[..l + 1][..l] == s[..l];
      if s[l] == '_' {
        return Place(s[..l], Atoi(s[l + 1..]));
      }
      l := l - 1;
    }
    return Place(s, 1);
  }

  lemma {:induction false} LastUnderscore(topic: string, t: string)
    requires '_' !in t
    ensures AfterUnderscore(topic + "_" + t) == |topic| + 1
    decreases |t|
  {
    var s := topic + "_" + t;
    if t == "" {
      assert s == topic + "_";
    } else {
      var k := |t| - 1;
      assert t[k] in t && s[..|s| - 1] == topic + "_" + t[..k];
      LastUnderscore(topic, t[..k]);
    }
  }

  lemma {:induction false} BlanksSkipped(blanks: string, rest: string)
    requires forall i | 0 <= i < |blanks| :: blanks[i] in {' ', '\t', '\n', '\U{0B}', '\U{0C}', '\r'}
    ensures Atoi(blanks + rest) == Atoi(rest)
  {
    if blanks == "" {
      assert blanks + rest == rest;
    } else {
      assert (blanks + rest)[1..] == blanks[1..] + rest;
      BlanksSkipped(blanks[1..], rest);
    }
  }

  lemma {:induction false} DigitsAhead(digits: string, rest: string)
    requires AllDigits(digits) && (rest != "" ==> !IsDigit(rest[0]))
    ensures DigitRun(digits + rest) == |digits|
  {
    if digits == "" {
      assert digits + rest == rest;
    } else {
      assert digits[0] in digits && (digits + rest)[1..] == digits[1..] + rest;
      DigitsAhead(digits[1..], rest);
    }
  }

  lemma DigitsMean(digits: string, rest: string)
    requires AllDigits(digits) && (rest != "" ==> !IsDigit(rest[0]))
    ensures Digits(digits + rest) == NatValue(digits)
  {
    DigitsAhead(digits, rest);
    assert (digits + rest)[..|digits|] == digits;
  }

  /** `atoi` skips white space, takes a sign, and reads the digits up to the first other byte. */
  lemma AtoiReads(blanks: string, sign: string, digits: string, rest: string)
    requires forall i | 0 <= i < |blanks| :: blanks[i] in {' ', '\t', '\n', '\U{0B}', '\U{0C}', '\r'}
    requires sign in {"", "+", "-"} && AllDigits(digits) && (rest != "" ==> !IsDigit(rest[0]))
    requires sign == digits == "" && rest != "" ==>
               rest[0] !in {' ', '\t', '\n', '\U{0B}', '\U{0C}', '\r', '+', '-'}
    ensures Atoi(blanks + (sign + (digits + rest)))
         == if sign == "-" then -(NatValue(digits) as int) else NatValue(digits)
  {
    BlanksSkipped(blanks, sign + (digits + rest));
    DigitsMean(digits, rest);
    if sign == "" {
      assert digits != "" ==> digits[0] in digits;
      assert sign + (digits + rest) == digits + rest;
    } else {
      assert (sign + (digits + rest))[1..] == digits + rest;
    }
  }

  lemma AtoiBack(n: int)
    ensures Atoi(IntText(n)) == n && '_' !in IntText(n)
  {
    var k := if n < 0 then -n else n;
    NatTextMeaning(k);
    DigitRunAll(NatText(k));
    assert NatText(k)[..|NatText(k)|] == NatText(k);
    assert n < 0 ==> IntText(n)[1..] == NatText(k);
    assert n >= 0 ==> IsDigit(IntText(n)[0]);
  }

  lemma IdText(topic: string, n: int)
    ensures CustomId(topic, n)[..3] == "hp_" && CustomId(topic, n)[3..] == topic + "_" + IntText(n)
  {
    assert CustomId(topic, n) == "hp_" + (topic + "_" + IntText(n));
  }

  lemma ParseText(topic: string, t: string)
    requires '_' !in t
    ensures ParseId(topic + "_" + t) == Place(topic, Atoi(t))
  {
    var s := topic + "_" + t;
    LastUnderscore(topic, t);
    assert s[..|topic|] == topic && s[|topic| + 1..] == t;
  }

  /** Whatever the topic, underscores included, its button's id reads back as the topic and the page. */
  lemma IdBack(topic: string, n: int)
    ensures CustomId(topic, n)[..3] == "hp_" && ParseId(CustomId(topic, n)[3..]) == Place(topic, n)
  {
    IdText(topic, n);
    AtoiBack(n);
    ParseText(topic, IntText(n));
  }

  // ----- clicks

  /** The page that the handler shows for the number in the id. */
  function Shown(n: int, max: int): int {
    if n == FIRST_PAGE then 1 else if n == LAST_PAGE then max else n
  }

  /** What the label of the button promises. */
  function Promised(b: Button, page: int, max: int): int {
    match b
    case First => 1
    case Previous => page - 1
    case Next => page + 1
    case Last => max
  }

  /** The page after a click, by way of the button's id. */
  function Clicked(topic: string, b: Button, page: int, max: int): int {
    Shown(ParseId(CustomId(topic, PageIn(b, page))[3..]).page, max)
  }

  /** Every enabled button does what its label says on every page, exactly when no page has a reserved number. */
  lemma LabelsAreTrue(topic: string, max: int)
    requires 1 <= max <= 2147483647
    ensures (forall b, page | 1 <= page <= max && !Disabled(b, page, max) ::
               Clicked(topic, b, page, max) == Promised(b, page, max)) <==> max < 2147483646
  {
    forall b, page: int ensures Clicked(topic, b, page, max) == Shown(PageIn(b, page), max) {
      IdBack(topic, PageIn(b, page));
    }
    if max >= FIRST_PAGE {
      assert !Disabled(Next, FIRST_PAGE - 1, max);
      assert Clicked(topic, Next, FIRST_PAGE - 1, max) == 1;
    }
  }

  /** The button can be clicked on `page` and leads to `next`. */
  ghost predicate Leads(topic: string, b: Button, page: int, next: int, max: int) {
    !Disabled(b, page, max) && next == Clicked(topic, b, page, max)
  }

  /** Which button leads from which page to which. */
  type Links = (Button, int, int) -> bool

  /** Some run of `n` clicks leads from the first page to `page`. */
  ghost predicate PathTo(links: Links, page: int, n: nat)
    decreases n
  {
    if n == 0 then page == 1 else exists b, before :: PathTo(links, before, n - 1) && links(b, before, page)
  }

  /** By way of the ids of the buttons. */
  ghost function Clicks(topic: string, max: int): Links {
    (b, page, next) => Leads(topic, b, page, next, max)
  }

  /** The same, without the detour through the ids. */
  ghost function Goes(max: int): Links {
    (b: Button, page: int, next: int) => !Disabled(b, page, max) && next == Shown(PageIn(b, page), max)
  }

  lemma {:induction false} PathSame(f: Links, g: Links, page: int, n: nat)
    requires forall b, p, q :: f(b, p, q) == g(b, p, q)
    ensures PathTo(f, page, n) <==> PathTo(g, page, n)
    decreases n
  {
    if n > 0 {
      var m := n - 1;
      forall before ensures PathTo(f, before, m) <==> PathTo(g, before, m) {
        PathSame(f, g, before, m);
      }
    }
  }

  lemma LeadsIsGoes(topic: string, max: int, b: Button, page: int, next: int)
    ensures Clicks(topic, max)(b, page, next) == Goes(max)(b, page, next)
  {
    IdBack(topic, PageIn(b, page));
  }

  lemma ClicksSame(topic: string, max: int, page: int, n: nat)
    ensures PathTo(Clicks(topic, max), page, n) <==> PathTo(Goes(max), page, n)
  {
    var f, g := Clicks(topic, max), Goes(max);
    forall b, p, q ensures f(b, p, q) == g(b, p, q) {
      LeadsIsGoes(topic, max, b, p, q);
    }
    PathSame(f, g, page, n);
  }

  lemma {:induction false} StaysInRange(max: int, page: int, n: nat)
    requires 1 <= max && PathTo(Goes(max), page, n)
    ensures 1 <= page <= max
    decreases n
  {
    if n > 0 {
      var b, before :| PathTo(Goes(max), before, n - 1) && Goes(max)(b, before, page);
      StaysInRange(max, before, n - 1);
    }
  }

  /** Over every run of clicks on enabled buttons the page stays within range. */
  lemma PagesStayInRange(topic: string, max: int, page: int, n: nat)
    requires 1 <= max <= 2147483647 && PathTo(Clicks(topic, max), page, n)
    ensures 1 <= page <= max
  {
    ClicksSame(topic, max, page, n);
    StaysInRange(max, page, n);
  }

  /** A button is disabled exactly when what it promises is the current page or no page at all. */
  lemma DisabledExactly(b: Button, page: int, max: int)
    requires 1 <= page <= max
    ensures Disabled(b, page, max) <==> Promised(b, page, max) == page || !(1 <= Promised(b, page, max) <= max)
  {
  }

  /** Clicking on through the pages, as long as none of them has a reserved number. */
  lemma {:induction false} GoNext(max: int, target: int, n: nat)
    requires 1 <= target <= max && target < FIRST_PAGE && n == target - 1
    ensures PathTo(Goes(max), target, n)
    decreases n
  {
    if n > 0 {
      GoNext(max, target - 1, n - 1);
      assert Goes(max)(Next, target - 1, target);
    }
  }

  lemma GoLast(max: int, n: nat)
    requires 1 < max <= LAST_PAGE && n == 1
    ensures PathTo(Goes(max), max, n)
  {
    assert PathTo(Goes(max), 1, n - 1) && Goes(max)(Last, 1, max);
  }

  /** With one page more than the reserved numbers allow, no click leads to the page that has the first of them. */
  lemma NeverShown(n: nat)
    ensures !PathTo(Goes(LAST_PAGE), FIRST_PAGE, n)
  {
    assert forall b, page :: !Goes(LAST_PAGE)(b, page, FIRST_PAGE);
  }

  ghost predicate CanReach(links: Links, page: int) {
    exists n :: PathTo(links, page, n)
  }

  lemma Found(links: Links, page: int, n: nat)
    requires PathTo(links, page, n)
    ensures CanReach(links, page)
  {
  }

  ghost predicate Reachable(topic: string, max: int, page: int) {
    CanReach(Clicks(topic, max), page)
  }

  lemma ReachedBy(topic: string, max: int, target: int, n: nat)
    requires PathTo(Goes(max), target, n)
    ensures Reachable(topic, max, target)
  {
    ClicksSame(topic, max, target, n);
    Found(Clicks(topic, max), target, n);
  }

  lemma IsReachable(topic: string, max: int, target: int, n: nat)
    requires 1 <= target <= max <= FIRST_PAGE && n == if target < FIRST_PAGE then target - 1 else 1
    ensures Reachable(topic, max, target)
  {
    if target < FIRST_PAGE {
      GoNext(max, target, n);
    } else {
      GoLast(max, n);
    }
    ReachedBy(topic, max, target, n);
  }

  lemma NotReachable(topic: string)
    ensures !Reachable(topic, LAST_PAGE, FIRST_PAGE)
  {
    forall n: nat ensures !PathTo(Clicks(topic, LAST_PAGE), FIRST_PAGE, n) {
      ClicksSame(topic, LAST_PAGE, FIRST_PAGE, n);
      NeverShown(n);
    }
  }

  /** Every page can be reached by clicks exactly when there are at most 2147483646 of them. */
  lemma AllReachedExactly(topic: string, max: int)
    requires 1 <= max <= 2147483647
    ensures (forall target | 1 <= target <= max :: Reachable(topic, max, target)) <==> max <= 2147483646
  {
    if max <= FIRST_PAGE {
      forall target | 1 <= target <= max ensures Reachable(topic, max, target) {
        IsReachable(topic, max, target, if target < FIRST_PAGE then target - 1 else 1);
      }
    } else {
      NotReachable(topic);
    }
  }
}
