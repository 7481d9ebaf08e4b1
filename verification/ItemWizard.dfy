/** The three commands `item start`, `item checkpoint` and `item finish`, chained through the JSON files they upload. */
module ItemWizard {
  import opened Outcomes
  import opened JsonValues
  import opened JsonPrinter
  import opened JsonParser
  import opened JsonScan
  import opened JsonRoundTrip
  import opened ParsedValues

  // ----- what the commands compute

  /** One option of a command: its "name" as a string, its "value" as it is. */
  function OptionMember(o: Json): Member {
    Member(StringOf(Get(MembersOf(o), "name")), Get(MembersOf(o), "value"))
  }

  function OptionMembers(options: seq<Json>): Members {
    if options == [] then [] else [OptionMember(options[0])] + OptionMembers(options[1..])
  }

  function ItemsOf(v: Json): seq<Json> {
    if v.List? then v.items else []
  }

  /** `reduce_options`. */
  function Reduced(options: Json): Members {
    PutAll([], OptionMembers(ItemsOf(options)))
  }

  /** An upload of a file, or the notice that the file sent along is not JSON. */
  datatype Reply<+T> = Done(value: T) | WrongType

  function StartText(options: Json): string {
    Repr(Object(Reduced(options)))
  }

  function CheckpointText(options: Json, step1: string): Result<string> {
    var v :- Parse(step1);
    Ok(Repr(Object(MembersOf(v) + Touch(Reduced(options), "step1_file"))))
  }

  type Table = map<string, Json>

  /** Assigning members to a table one after the other. */
  function Overlay(m: Table, pairs: Members): Table
    decreases pairs
  {
    if pairs == [] then m else Overlay(m[pairs[0].name := pairs[0].value], pairs[1..])
  }

  function FinishTable(defaults: Table, options: Json, step2: string): Result<Table> {
    var v :- Parse(step2);
    Ok(Overlay(defaults, MembersOf(v) + Touch(Reduced(options), "step2_file")))
  }

  // ----- the code

  method ReduceOptions(options: Json) returns (ret: JsonObject)
    ensures fresh(ret) && ret.pairs == Reduced(options)
  {
    ret := new JsonObject([]);
    var items := ItemsOf(options);
    for i := 0 to |items|
      invariant fresh(ret)
      invariant PutAll(ret.pairs, OptionMembers(items[i..])) == Reduced(options)
    {
      assert items[i..][1..] == items[i + 1..];
      ghost var before := ret.pairs;
      ret.Set(StringOf(Get(MembersOf(items[i]), "name")), Get(MembersOf(items[i]), "value"));
      PutAllCons(before, OptionMember(items[i]), OptionMembers(items[i + 1..]));
    }
  }

  lemma PutAllCons(acc: Members, m: Member, rest: Members)
    ensures PutAll(acc, [m] + rest) == PutAll(Put(acc, m.name, m.value), rest)
  {
    assert ([m] + rest)[1..] == rest;
  }

  method Start(options: Json) returns (text: string)
    ensures text == StartText(options)
  {
    var step1 := ReduceOptions(options);
    text := GetRepr(Object(step1.pairs));
  }

  method Checkpoint(options: Json, isJson: bool, step1Data: string) returns (r: Result<Reply<string>>)
    ensures !isJson ==> r == Ok(WrongType)
    ensures isJson ==> r == match CheckpointText(options, step1Data)
                            case Ok(text) => Ok(Done(text))
                            case Throw => Throw
  {
    var step2 := ReduceOptions(options);
    var valueId := step2.At("step1_file");
    if !isJson {
      return Ok(WrongType);
    }
    var step1 := ParseText(step1Data);
    if step1.Throw? {
      return Throw;
    }
    step2.pairs := MembersOf(step1.value) + step2.pairs;
    var text := GetRepr(Object(step2.pairs));
    r := Ok(Done(text));
  }

  method Finish(defaults: Table, options: Json, isJson: bool, step2Data: string) returns (r: Result<Reply<Table>>)
    ensures !isJson ==> r == Ok(WrongType)
    ensures isJson ==> r == match FinishTable(defaults, options, step2Data)
                            case Ok(table) => Ok(Done(table))
                            case Throw => Throw
  {
    var step3 := ReduceOptions(options);
    var valueId := step3.At("step2_file");
    if !isJson {
      return Ok(WrongType);
    }
    var step2 := ParseText(step2Data);
    if step2.Throw? {
      return Throw;
    }
    step3.pairs := MembersOf(step2.value) + step3.pairs;
    var pairs := step3.pairs;
    var witdt := defaults;
    for i := 0 to |pairs|
      invariant Overlay(witdt, pairs[i..]) == Overlay(defaults, pairs)
    {
      assert pairs[i..][1..] == pairs[i + 1..];
      witdt := witdt[pairs[i].name := pairs[i].value];
    }
    r := Ok(Done(witdt));
  }

  // ----- overlays

  lemma {:induction false} OverlayConcat(m: Table, a: Members, b: Members)
    ensures Overlay(m, a + b) == Overlay(Overlay(m, a), b)
    decreases a
  {
    if a == [] {
      assert a + b == b;
    } else {
      assert (a + b)[1..] == a[1..] + b;
      OverlayConcat(m[a[0].name := a[0].value], a[1..], b);
    }
  }

  ghost predicate Absent(pairs: Members, k: string) {
    forall i | 0 <= i < |pairs| :: pairs[i].name != k
  }

  lemma {:induction false} OverlayAbsent(m: Table, pairs: Members, k: string, v: Json)
    requires Absent(pairs, k)
    ensures Overlay(m[k := v], pairs) == Overlay(m, pairs)[k := v]
    decreases pairs
  {
    if pairs != [] {
      var q, x := pairs[0].name, pairs[0].value;
      assert m[k := v][q := x] == m[q := x][k := v];
      OverlayAbsent(m[q := x], pairs[1..], k, v);
    }
  }

  lemma PutCons(pairs: Members, k: string, v: Json)
    requires pairs != []
    ensures pairs[0].name == k ==> Put(pairs, k, v) == [Member(k, v)] + pairs[1..]
    ensures pairs[0].name != k ==> Put(pairs, k, v) == [pairs[0]] + Put(pairs[1..], k, v)
  {
  }

  /** Overlaying after an assignment is assigning after the overlay. */
  lemma {:induction false} OverlayPut(m: Table, acc: Members, k: string, v: Json)
    requires DistinctKeys(acc)
    ensures Overlay(m, Put(acc, k, v)) == Overlay(m, acc)[k := v]
    decreases acc
  {
    if acc == [] {
      assert Put(acc, k, v) == [Member(k, v)] && [Member(k, v)][1..] == [];
    } else {
      PutCons(acc, k, v);
      var q, x := acc[0].name, acc[0].value;
      if q == k {
        OverlayAbsent(m, acc[1..], k, v);
        OverlayAbsent(m, acc[1..], k, x);
        assert Put(acc, k, v)[1..] == acc[1..];
        assert Overlay(m, acc[1..])[k := x][k := v] == Overlay(m, acc[1..])[k := v];
      } else {
        OverlayPut(m[q := x], acc[1..], k, v);
        assert Put(acc, k, v)[1..] == Put(acc[1..], k, v);
      }
    }
  }

  /** Overlaying what assignment has collected is overlaying in the order of assignment. */
  lemma {:induction false} OverlayPutAll(m: Table, acc: Members, pairs: Members)
    requires DistinctKeys(acc)
    ensures DistinctKeys(PutAll(acc, pairs))
    ensures Overlay(m, PutAll(acc, pairs)) == Overlay(Overlay(m, acc), pairs)
    decreases pairs
  {
    if pairs != [] {
      var k, v := pairs[0].name, pairs[0].value;
      PutKeepsDistinct(acc, k, v);
      OverlayPut(m, acc, k, v);
      OverlayPutAll(m, Put(acc, k, v), pairs[1..]);
    }
  }

  // ----- normalising

  lemma {:induction false} NormMembersConcat(a: Members, b: Members)
    ensures NormMembers(a + b) == NormMembers(a) + NormMembers(b)
  {
    if a == [] {
      assert a + b == b;
    } else {
      assert (a + b)[1..] == a[1..] + b;
      NormMembersConcat(a[1..], b);
    }
  }

  lemma {:induction false} NormPutAll(acc: Members, pairs: Members)
    ensures NormMembers(PutAll(acc, pairs)) == PutAll(NormMembers(acc), NormMembers(pairs))
    decreases pairs
  {
    if pairs != [] {
      NormPut(acc, pairs[0].name, pairs[0].value);
      NormPutAll(Put(acc, pairs[0].name, pairs[0].value), pairs[1..]);
      PutAllCons(NormMembers(acc), Member(pairs[0].name, Norm(pairs[0].value)), NormMembers(pairs[1..]));
    }
  }

  /** A second trip changes nothing more. */
  lemma {:induction false} NormIdempotent(v: Json)
    ensures Norm(Norm(v)) == Norm(v)
    decreases v, 1
  {
    match v {
      case List(items) =>
        NormItemsIdempotent(items);
      case Object(pairs) =>
        NormMembersIdempotent(pairs);
        NormPutAll([], NormMembers(pairs));
        OverlayPutAll(map[], [], NormMembers(pairs));
        var q := PutAll([], NormMembers(pairs));
        assert [] + q == q;
        PutAllDistinct([], q);
      case _ =>
    }
  }

  lemma {:induction false} NormItemsIdempotent(items: seq<Json>)
    ensures NormItems(NormItems(items)) == NormItems(items)
    decreases items, 0
  {
    if items != [] {
      NormIdempotent(items[0]);
      NormItemsIdempotent(items[1..]);
    }
  }

  lemma {:induction false} NormMembersIdempotent(pairs: Members)
    ensures NormMembers(NormMembers(pairs)) == NormMembers(pairs)
    decreases pairs, 0
  {
    if pairs != [] {
      NormIdempotent(pairs[0].value);
      NormMembersIdempotent(pairs[1..]);
      assert NormMembers(pairs)[1..] == NormMembers(pairs[1..]);
    }
  }

  // ----- the domain

  ghost predicate GoodMembers(pairs: Members) {
    forall i | 0 <= i < |pairs| :: GoodString(pairs[i].name) && GoodValue(pairs[i].value)
  }

  lemma GoodPut(acc: Members, k: string, v: Json)
    requires GoodMembers(acc) && GoodString(k) && GoodValue(v)
    ensures GoodMembers(Put(acc, k, v))
  {
  }

  lemma {:induction false} GoodPutAll(acc: Members, pairs: Members)
    requires GoodMembers(acc) && GoodMembers(pairs)
    ensures GoodMembers(PutAll(acc, pairs))
    decreases pairs
  {
    if pairs != [] {
      assert GoodMembers([pairs[0]]) && GoodMembers(pairs[1..]);
      GoodPut(acc, pairs[0].name, pairs[0].value);
      GoodPutAll(Put(acc, pairs[0].name, pairs[0].value), pairs[1..]);
    }
  }

  lemma {:induction false} GoodNorm(v: Json)
    requires GoodValue(v)
    ensures GoodValue(Norm(v))
    decreases v, 1
  {
    match v {
      case List(items) =>
        NormItemsAt(items);
        forall i | 0 <= i < |items| ensures GoodValue(NormItems(items)[i]) && GoodElement(NormItems(items)[i]) {
          GoodNorm(items[i]);
        }
      case Object(pairs) =>
        GoodNormMembers(pairs);
        GoodPutAll([], NormMembers(pairs));
        PutAllNotEmpty([], NormMembers(pairs));
      case _ =>
    }
  }

  lemma {:induction false} GoodNormMembers(pairs: Members)
    requires GoodMembers(pairs)
    ensures GoodMembers(NormMembers(pairs)) && |NormMembers(pairs)| == |pairs|
    decreases pairs, 0
  {
    if pairs != [] {
      assert GoodMembers([pairs[0]]) && GoodMembers(pairs[1..]);
      GoodNorm(pairs[0].value);
      GoodNormMembers(pairs[1..]);
    }
  }

  // ----- one command after the other

  /** What the next command reads from an uploaded object. */
  ghost function Carried(pairs: Members): Members {
    if pairs == [] then [Member("", Int(0))] else PutAll([], NormMembers(pairs))
  }

  /** The text of the object comes back: it is the empty one, or one of the exact ones. */
  ghost predicate Returns(pairs: Members) {
    pairs == [] || (Typed(Object(pairs)) && Exact(Object(pairs)))
  }

  lemma CarriedBack(pairs: Members)
    requires Returns(pairs)
    ensures Parse(Repr(Object(pairs))) == Ok(Object(Carried(pairs)))
  {
    if pairs == [] {
      EmptyObjectBack();
    } else {
      RoundTrip(Object(pairs));
    }
  }

  /** What was carried once is not changed by being carried again. */
  lemma CarriedIsNormal(pairs: Members)
    ensures Carried(pairs) != [] && NormMembers(Carried(pairs)) == Carried(pairs)
  {
    if pairs == [] {
      assert NormMembers([Member("", Int(0))][1..]) == [];
    } else {
      PutAllNotEmpty([], NormMembers(pairs));
      NormPutAll([], NormMembers(pairs));
      NormMembersIdempotent(pairs);
    }
  }

  lemma {:induction false} PutAllNotEmpty(acc: Members, pairs: Members)
    requires acc != [] || pairs != []
    ensures PutAll(acc, pairs) != []
    decreases pairs
  {
    if pairs != [] {
      PutAllNotEmpty(Put(acc, pairs[0].name, pairs[0].value), pairs[1..]);
    }
  }

  lemma OverlayCarried(m: Table, pairs: Members)
    ensures Overlay(m, Carried(pairs)) == if pairs == [] then m["" := Int(0)] else Overlay(m, NormMembers(pairs))
  {
    if pairs == [] {
      assert [Member("", Int(0))][1..] == [];
    } else {
      OverlayPutAll(m, [], NormMembers(pairs));
    }
  }

  /** The three commands, each reading the file that the one before uploaded. */
  function Run(defaults: Table, o1: Json, o2: Json, o3: Json): Result<Table> {
    var step2 :- CheckpointText(o2, StartText(o1));
    FinishTable(defaults, o3, step2)
  }

  /** What the first two commands print comes back: the options of the first, and those together with the second's. */
  ghost predicate BothReturn(o1: Json, o2: Json) {
    && Returns(Reduced(o1))
    && Returns(Carried(Reduced(o1)) + Touch(Reduced(o2), "step1_file"))
  }

  /** The table reached is the defaults under step 1, step 2 and step 3. */
  lemma RunIsOverlay(defaults: Table, o1: Json, o2: Json, o3: Json)
    requires BothReturn(o1, o2)
    ensures Run(defaults, o1, o2, o3) == Ok(
              Overlay(Overlay(Overlay(defaults, Carried(Reduced(o1))),
                              NormMembers(Touch(Reduced(o2), "step1_file"))),
                      Touch(Reduced(o3), "step2_file")))
  {
    var r1, r2, r3 := Carried(Reduced(o1)), Touch(Reduced(o2), "step1_file"), Touch(Reduced(o3), "step2_file");
    CarriedBack(Reduced(o1));
    CarriedBack(r1 + r2);
    OverlayConcat(defaults, Carried(r1 + r2), r3);
    OverlaySent(defaults, Reduced(o1), r2);
  }

  /** The first options and then the second ones, printed and read back together. */
  lemma OverlaySent(m: Table, first: Members, second: Members)
    ensures Overlay(m, Carried(Carried(first) + second)) == Overlay(Overlay(m, Carried(first)), NormMembers(second))
  {
    var r1 := Carried(first);
    CarriedIsNormal(first);
    OverlayCarried(m, r1 + second);
    NormMembersConcat(r1, second);
    OverlayConcat(m, r1, NormMembers(second));
  }

  // ----- options that can be put together in any way

  ghost predicate GoodOptions(o: Json) {
    GoodMembers(OptionMembers(ItemsOf(o)))
  }

  lemma GoodReturns(pairs: Members)
    requires GoodMembers(pairs)
    ensures Returns(pairs)
  {
    if pairs != [] {
      GoodIsExact(Object(pairs));
    }
  }

  lemma PlainIsGood(s: string)
    requires Plain(s) && '\U{0B}' !in s
    ensures GoodString(s)
  {
    PlainIsBalanced(s);
  }

  lemma FileNameIsGood()
    ensures GoodString("step1_file")
  {
    var s := "step1_file";
    assert forall i | 0 <= i < |s| :: !IsMark(s[i]);
    PlainIsGood(s);
  }

  lemma {:induction false} PlainIsBalanced(s: string)
    requires Plain(s)
    ensures Balanced(s, 0, 0)
  {
    if s != "" {
      assert s[0] in s;
      PlainIsBalanced(s[1..]);
    }
  }

  lemma GoodCarried(pairs: Members)
    requires GoodMembers(pairs)
    ensures GoodMembers(Carried(pairs))
  {
    GoodNormMembers(pairs);
    GoodPutAll([], NormMembers(pairs));
  }

  lemma GoodTouched(o: Json, file: string)
    requires GoodOptions(o) && GoodString(file)
    ensures GoodMembers(Reduced(o)) && GoodMembers(Touch(Reduced(o), file))
  {
    GoodPutAll([], OptionMembers(ItemsOf(o)));
  }

  lemma GoodMembersConcat(a: Members, b: Members)
    requires GoodMembers(a) && GoodMembers(b)
    ensures GoodMembers(a + b)
  {
  }

  /** Options whose strings have balanced brackets come back, whichever they are. */
  lemma GoodOptionsReturn(o1: Json, o2: Json)
    requires GoodOptions(o1) && GoodOptions(o2)
    ensures BothReturn(o1, o2)
  {
    var r1, r2 := Reduced(o1), Touch(Reduced(o2), "step1_file");
    FileNameIsGood();
    GoodTouched(o1, "step1_file");
    GoodTouched(o2, "step1_file");
    GoodCarried(r1);
    GoodMembersConcat(Carried(r1), r2);
    GoodReturns(r1);
    GoodReturns(Carried(r1) + r2);
  }

  // ----- the table by name

  datatype Entry = Found(value: Json) | Missing

  function Lookup(m: Table, name: string): Entry {
    if name in m then Found(m[name]) else Missing
  }

  /** The value of the last member of that name. */
  function LastOf(pairs: Members, name: string): Entry {
    if pairs == [] then Missing
    else
      var last := pairs[|pairs| - 1];
      if last.name == name then Found(last.value) else LastOf(pairs[..|pairs| - 1], name)
  }

  function Normed(e: Entry): Entry {
    if e.Found? then Found(Norm(e.value)) else Missing
  }

  function Over(e: Entry, below: Entry): Entry {
    if e.Found? then e else below
  }

  lemma {:induction false} OverlayLookup(m: Table, pairs: Members, name: string)
    ensures Lookup(Overlay(m, pairs), name) == Over(LastOf(pairs, name), Lookup(m, name))
    decreases |pairs|
  {
    if pairs != [] {
      var init, last := pairs[..|pairs| - 1], pairs[|pairs| - 1];
      assert pairs == init + [last] && [last][1..] == [];
      OverlayConcat(m, init, [last]);
      OverlayLookup(m, init, name);
    }
  }

  lemma {:induction false} LastNormed(pairs: Members, name: string)
    ensures LastOf(NormMembers(pairs), name) == Normed(LastOf(pairs, name))
    decreases |pairs|
  {
    if pairs != [] {
      var init, last := pairs[..|pairs| - 1], pairs[|pairs| - 1];
      assert pairs == init + [last];
      NormMembersConcat(init, [last]);
      assert NormMembers([last][1..]) == [];
      assert NormMembers([last]) == [Member(last.name, Norm(last.value))];
      assert NormMembers(pairs)[..|NormMembers(init)|] == NormMembers(init);
      LastNormed(init, name);
    }
  }

  /** What an option set says about a name, the touched file option included. */
  function Says(o: Json, file: string, name: string): Entry {
    Over(LastOf(OptionMembers(ItemsOf(o)), name), if name == file then Found(Int(0)) else Missing)
  }

  lemma LastReduced(o: Json, name: string)
    ensures LastOf(Reduced(o), name) == LastOf(OptionMembers(ItemsOf(o)), name)
    ensures Has(Reduced(o), name) <==> LastOf(Reduced(o), name).Found?
  {
    var ps := OptionMembers(ItemsOf(o));
    OverlayPutAll(map[], [], ps);
    OverlayLookup(map[], Reduced(o), name);
    OverlayLookup(map[], ps, name);
    LastHas(Reduced(o), name);
  }

  lemma {:induction false} LastHas(pairs: Members, name: string)
    ensures Has(pairs, name) <==> LastOf(pairs, name).Found?
    decreases |pairs|
  {
    if pairs != [] {
      var k := |pairs| - 1;
      LastHas(pairs[..k], name);
      if Has(pairs, name) && pairs[k].name != name {
        var i :| 0 <= i < |pairs| && pairs[i].name == name;
        assert pairs[..k][i].name == name;
      }
      if Has(pairs[..k], name) {
        var i :| 0 <= i < k && pairs[..k][i].name == name;
        assert pairs[i].name == name;
      }
    }
  }

  lemma LastTouched(o: Json, file: string, name: string)
    ensures LastOf(Touch(Reduced(o), file), name) == Says(o, file, name)
  {
    LastReduced(o, name);
    LastReduced(o, file);
    var r := Reduced(o);
    assert (r + [Member(file, Int(0))])[..|r|] == r;
  }

  /** What the three option sets and the defaults say about a name, the later one first. */
  function Saying(defaults: Table, o1: Json, o2: Json, o3: Json, name: string): Entry {
    Over(Says(o3, "step2_file", name),
         Over(Normed(Says(o2, "step1_file", name)),
              Over(Normed(LastOf(OptionMembers(ItemsOf(o1)), name)),
                   Lookup(defaults, name))))
  }

  /**
   For every option name but the empty one, the wizard's table holds what the last step that names the
   option says, as it is from step 3 and normalised from steps 1 and 2, and the default otherwise.
   */
  lemma ChainIsOverride(defaults: Table, o1: Json, o2: Json, o3: Json, name: string)
    requires BothReturn(o1, o2) && name != ""
    ensures Run(defaults, o1, o2, o3).Ok?
    ensures Lookup(Run(defaults, o1, o2, o3).value, name) == Saying(defaults, o1, o2, o3, name)
  {
    RunIsOverlay(defaults, o1, o2, o3);
    var r1, r2, r3 := Reduced(o1), Touch(Reduced(o2), "step1_file"), Touch(Reduced(o3), "step2_file");
    var m1 := Overlay(defaults, Carried(r1));
    var m2 := Overlay(m1, NormMembers(r2));
    OverlayLookup(m2, r3, name);
    LastTouched(o3, "step2_file", name);
    OverlayLookup(m1, NormMembers(r2), name);
    LastNormed(r2, name);
    LastTouched(o2, "step1_file", name);
    OverlayCarried(defaults, r1);
    OverlayLookup(defaults, NormMembers(r1), name);
    LastNormed(r1, name);
    LastReduced(o1, name);
  }

  /** In particular for all options whose strings have balanced brackets. */
  lemma GoodChainIsOverride(defaults: Table, o1: Json, o2: Json, o3: Json, name: string)
    requires GoodOptions(o1) && GoodOptions(o2) && name != ""
    ensures Run(defaults, o1, o2, o3).Ok?
    ensures Lookup(Run(defaults, o1, o2, o3).value, name) == Saying(defaults, o1, o2, o3, name)
  {
    GoodOptionsReturn(o1, o2);
    ChainIsOverride(defaults, o1, o2, o3, name);
  }

  // ----- options as the user gave them

  /** An object with the name and the value of the option, in any order, and whatever else. */
  ghost predicate Holds(o: Json, option: Member) {
    && o.Object? && DistinctKeys(o.pairs)
    && Member("name", Str(option.name)) in o.pairs && Member("value", option.value) in o.pairs
  }

  /** The list of such objects for the options given. */
  ghost predicate Payload(options: Json, given: Members) {
    && options.List? && |options.items| == |given|
    && forall i | 0 <= i < |given| :: Holds(options.items[i], given[i])
  }

  lemma GetDistinct(pairs: Members, m: Member)
    requires DistinctKeys(pairs) && m in pairs
    ensures Get(pairs, m.name) == m.value
  {
  }

  lemma HoldsMember(o: Json, option: Member)
    requires Holds(o, option)
    ensures OptionMember(o) == option
  {
    GetDistinct(o.pairs, Member("name", Str(option.name)));
    GetDistinct(o.pairs, Member("value", option.value));
  }

  lemma {:induction false} ReadBack(items: seq<Json>, given: Members)
    requires |items| == |given| && forall i | 0 <= i < |given| :: Holds(items[i], given[i])
    ensures OptionMembers(items) == given
  {
    if items != [] {
      HoldsMember(items[0], given[0]);
      ReadBack(items[1..], given[1..]);
    }
  }

  /** `reduce_options` keeps of every name the value given last, and no other name. */
  lemma ReducedIsLast(options: Json, given: Members, name: string)
    requires Payload(options, given)
    ensures Reduced(options) == PutAll([], given) && DistinctKeys(Reduced(options))
    ensures LastOf(given, name) == if Has(Reduced(options), name) then Found(Get(Reduced(options), name)) else Missing
  {
    ReadBack(options.items, given);
    LastReduced(options, name);
    OverlayPutAll(map[], [], given);
    LastIsOnly(Reduced(options), name);
  }

  lemma LastIsOnly(pairs: Members, name: string)
    requires DistinctKeys(pairs)
    ensures LastOf(pairs, name) == if Has(pairs, name) then Found(Get(pairs, name)) else Missing
  {
    LastHas(pairs, name);
    if Has(pairs, name) {
      LastIn(pairs, name);
      GetDistinct(pairs, Member(name, LastOf(pairs, name).value));
    }
  }

  lemma {:induction false} LastIn(pairs: Members, name: string)
    requires LastOf(pairs, name).Found?
    ensures Member(name, LastOf(pairs, name).value) in pairs
  {
    if pairs[|pairs| - 1].name != name {
      LastIn(pairs[..|pairs| - 1], name);
    }
  }

  /** The objects that the first two commands print for these options come back. */
  ghost predicate GivenReturn(g1: Members, g2: Members) {
    && Returns(PutAll([], g1))
    && Returns(Carried(PutAll([], g1)) + Touch(PutAll([], g2), "step1_file"))
  }

  /** A file option that was not given is there all the same, and is zero. */
  function FileOption(file: string, name: string): Entry {
    if name == file then Found(Int(0)) else Missing
  }

  /** What the options given in the three steps and the defaults make of a name. */
  function Override(defaults: Table, g1: Members, g2: Members, g3: Members, name: string): Entry {
    Over(LastOf(g3, name),
         Over(FileOption("step2_file", name),
              Over(Normed(LastOf(g2, name)),
                   Over(FileOption("step1_file", name),
                        Over(Normed(LastOf(g1, name)), Lookup(defaults, name))))))
  }

  /**
   The wizard from the options given to the table: for every name but the empty one the last step that gives
   it decides, with the value it gives last, as it is in step 3 and normalised in steps 1 and 2.
   */
  lemma WizardIsOverride(defaults: Table, o1: Json, o2: Json, o3: Json, g1: Members, g2: Members, g3: Members,
                         name: string)
    requires Payload(o1, g1) && Payload(o2, g2) && Payload(o3, g3)
    requires GivenReturn(g1, g2) && name != ""
    ensures Run(defaults, o1, o2, o3).Ok?
    ensures Lookup(Run(defaults, o1, o2, o3).value, name) == Override(defaults, g1, g2, g3, name)
  {
    ReadBack(o1.items, g1);
    ReadBack(o2.items, g2);
    ReadBack(o3.items, g3);
    ChainIsOverride(defaults, o1, o2, o3, name);
  }

  /** In particular whenever the strings of the first two steps have balanced brackets. */
  lemma GoodWizardIsOverride(defaults: Table, o1: Json, o2: Json, o3: Json, g1: Members, g2: Members, g3: Members,
                             name: string)
    requires Payload(o1, g1) && Payload(o2, g2) && Payload(o3, g3)
    requires GoodMembers(g1) && GoodMembers(g2) && name != ""
    ensures Run(defaults, o1, o2, o3).Ok?
    ensures Lookup(Run(defaults, o1, o2, o3).value, name) == Override(defaults, g1, g2, g3, name)
  {
    ReadBack(o1.items, g1);
    ReadBack(o2.items, g2);
    GoodOptionsReturn(o1, o2);
    WizardIsOverride(defaults, o1, o2, o3, g1, g2, g3, name);
  }
}
