/**
 JSON values and the ordered association list that holds the members of an object.
 A byte of the original's strings is a `char` below 256.
 */
module JsonValues {

  predicate IsFloatChar(c: char) {
    '0' <= c <= '9' || 'a' <= c <= 'z' || c == '.' || c == '+' || c == '-' || c == 'E'
  }

  /** The text a stream prints for a double: "1.5", "-2e+10", "inf", "nan". */
  type FloatText = t: string | t != "" && forall c | c in t :: IsFloatChar(c) witness "0"

  datatype Member = Member(name: string, value: Json)

  type Members = seq<Member>

  datatype Json =
    | Int(n: int)
    | Str(s: string)
    | List(items: seq<Json>)
    | Object(pairs: Members)
    | Enum(code: int)
    | Double(text: FloatText)
    | LongLong(m: int)

  /** `val_string`, which is empty for anything but a string. */
  function StringOf(v: Json): string {
    if v.Str? then v.s else ""
  }

  /** `val_object`, which is empty for anything but an object. */
  function MembersOf(v: Json): Members {
    if v.Object? then v.pairs else []
  }

  const INT_MIN: int := -0x8000_0000
  const INT_MAX: int := 0x7FFF_FFFF
  const LLONG_MIN: int := -0x8000_0000_0000_0000
  const LLONG_MAX: int := 0x7FFF_FFFF_FFFF_FFFF

  /** The first member with the given name decides, as in the search loop of `operator[]`. */
  predicate Has(pairs: Members, key: string) {
    exists i | 0 <= i < |pairs| :: pairs[i].name == key
  }

  function Find(pairs: Members, key: string): (l: nat)
    ensures l <= |pairs|
    ensures l < |pairs| <==> Has(pairs, key)
    ensures l < |pairs| ==> pairs[l].name == key
    ensures forall j | 0 <= j < l :: pairs[j].name != key
  {
    if pairs == [] || pairs[0].name == key then 0 else 1 + Find(pairs[1..], key)
  }

  /** What `o[key]` leaves behind: a default member at the end when the name is new. */
  function Touch(pairs: Members, key: string): Members {
    if Has(pairs, key) then pairs else pairs + [Member(key, Int(0))]
  }

  /** What `o[key] = v` leaves behind. */
  function Put(pairs: Members, key: string, v: Json): (r: Members)
  {
    var l := Find(pairs, key);
    if l < |pairs| then pairs[l := Member(key, v)] else pairs + [Member(key, v)]
  }

  function Get(pairs: Members, key: string): Json {
    var l := Find(pairs, key);
    if l < |pairs| then pairs[l].value else Int(0)
  }

  function PutAll(acc: Members, pairs: Members): Members
    decreases pairs
  {
    if pairs == [] then acc else PutAll(Put(acc, pairs[0].name, pairs[0].value), pairs[1..])
  }

  ghost predicate DistinctKeys(pairs: Members) {
    forall i, j | 0 <= i < j < |pairs| :: pairs[i].name != pairs[j].name
  }

  lemma PutKeepsDistinct(pairs: Members, key: string, v: Json)
    requires DistinctKeys(pairs)
    ensures DistinctKeys(Put(pairs, key, v))
  {
    var l := Find(pairs, key);
    assert l == |pairs| ==> forall j | 0 <= j < |pairs| :: pairs[j].name != key;
  }

  /** An object as a finite map; the first member of a name wins. */
  ghost function AsMap(pairs: Members): (m: map<string, Json>)
  {
    map k: string | k in (set i | 0 <= i < |pairs| :: pairs[i].name) :: Get(pairs, k)
  }

  lemma AsMapHas(pairs: Members, key: string)
    ensures key in AsMap(pairs) <==> Has(pairs, key)
    ensures key in AsMap(pairs) ==> AsMap(pairs)[key] == Get(pairs, key)
  {
  }

  lemma FirstIsFind(pairs: Members, key: string, l: nat)
    requires l <= |pairs|
    requires forall j | 0 <= j < l :: pairs[j].name != key
    requires l < |pairs| ==> pairs[l].name == key
    ensures Find(pairs, key) == l
  {
  }

  lemma PutHas(pairs: Members, key: string, v: Json, k: string)
    ensures Has(Put(pairs, key, v), k) <==> k == key || Has(pairs, k)
  {
    var r, l := Put(pairs, key, v), Find(pairs, key);
    assert r[l] == Member(key, v);
    if Has(pairs, k) {
      var i :| 0 <= i < |pairs| && pairs[i].name == k;
      assert r[i].name == k;
    }
    if Has(r, k) && k != key {
      var i :| 0 <= i < |r| && r[i].name == k;
      assert pairs[i].name == k;
    }
  }

  lemma PutGet(pairs: Members, key: string, v: Json, k: string)
    ensures Get(Put(pairs, key, v), k) == if k == key then v else Get(pairs, k)
  {
    var r, l := Put(pairs, key, v), Find(pairs, k);
    PutHas(pairs, key, v, k);
    if k == key || l < |pairs| {
      FirstIsFind(r, k, l);
    }
  }

  /** Assigning a member is a map update, and reading it back gives the new value. */
  lemma PutIsMapUpdate(pairs: Members, key: string, v: Json)
    ensures AsMap(Put(pairs, key, v)) == AsMap(pairs)[key := v]
  {
    var r, m := AsMap(Put(pairs, key, v)), AsMap(pairs)[key := v];
    forall k ensures k in r <==> k in m {
      AsMapHas(Put(pairs, key, v), k);
      AsMapHas(pairs, k);
      PutHas(pairs, key, v, k);
    }
    forall k | k in r ensures r[k] == m[k] {
      AsMapHas(Put(pairs, key, v), k);
      AsMapHas(pairs, k);
      PutGet(pairs, key, v, k);
    }
  }

  /** Assigning the members of an object with distinct names to a new one gives the object. */
  lemma {:induction false} PutAllDistinct(acc: Members, pairs: Members)
    requires DistinctKeys(acc + pairs)
    ensures PutAll(acc, pairs) == acc + pairs
    decreases pairs
  {
    if pairs == [] {
      assert acc + pairs == acc;
    } else {
      var m := pairs[0];
      forall j | 0 <= j < |acc| ensures acc[j].name != m.name {
        assert (acc + pairs)[j] == acc[j] && (acc + pairs)[|acc|] == m;
      }
      FirstIsFind(acc, m.name, |acc|);
      assert acc + pairs == (acc + [m]) + pairs[1..];
      PutAllDistinct(acc + [m], pairs[1..]);
    }
  }

  /** The object whose members the parser and the commands update in place. */
  class JsonObject {
    var pairs: Members

    constructor (pairs: Members)
      ensures this.pairs == pairs
    {
      this.pairs := pairs;
    }

    /** `operator[]`: the place of the named member, made if it is missing. */
    method At(key: string) returns (l: nat)
      modifies this
      ensures pairs == Touch(old(pairs), key)
      ensures l == Find(pairs, key) && l < |pairs|
    {
      l := |pairs|;
      for i := 0 to l
        invariant forall j | 0 <= j < i :: pairs[j].name != key
        invariant pairs == old(pairs)
      {
        if pairs[i].name == key {
          FirstIsFind(pairs, key, i);
          return i;
        }
      }
      pairs := pairs + [Member(key, Int(0))];
      FirstIsFind(pairs, key, l);
      assert !Has(old(pairs), key);
    }

    /** `o[key] = v`. */
    method Set(key: string, v: Json)
      modifies this
      ensures pairs == Put(old(pairs), key, v)
    {
      var l := At(key);
      pairs := pairs[l := Member(key, v)];
      if !Has(old(pairs), key) {
        FirstIsFind(old(pairs) + [Member(key, Int(0))], key, |old(pairs)|);
      }
    }
  }
}
