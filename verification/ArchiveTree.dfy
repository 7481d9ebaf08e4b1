/** `add_files_to_zip`: a directory tree flattened into archive entries. */
module ArchiveTree {

  datatype Content = Binary(bytes: string) | PlainText(text: string)

  /** A file of the three known types. */
  datatype File =
    | Leaf(name: string, content: Content)
    | Directory(name: string, contents: seq<File>)

  /** An entry of the archive: binary contents are deflated, text contents are stored. */
  datatype Entry = Entry(path: string, content: Content)

  // ----- what the code appends

  function ChildPath(subdirectory: string, name: string): string {
    subdirectory + (if subdirectory == "" then "" else "/") + name
  }

  function Entries(f: File, subdirectory: string): seq<Entry>
    decreases f, 1
  {
    match f
    case Leaf(_, content) => [Entry(subdirectory, content)]
    case Directory(_, contents) => AllEntries(contents, subdirectory)
  }

  function AllEntries(fs: seq<File>, subdirectory: string): seq<Entry>
    decreases fs, 0
  {
    if fs == [] then []
    else Entries(fs[0], ChildPath(subdirectory, fs[0].name)) + AllEntries(fs[1..], subdirectory)
  }

  // ----- the code

  /** The open archive. */
  class Archive {
    var entries: seq<Entry>

    constructor ()
      ensures entries == []
    {
      entries := [];
    }
  }

  method AddFilesToZip(f: File, subdirectory: string, archive: Archive)
    modifies archive
    ensures archive.entries == old(archive.entries) + Entries(f, subdirectory)
    decreases f
  {
    match f {
      case Leaf(_, content) =>
        archive.entries := archive.entries + [Entry(subdirectory, content)];
      case Directory(_, contents) =>
        ghost var before := archive.entries;
        for i := 0 to |contents|
          invariant archive.entries + AllEntries(contents[i..], subdirectory)
                 == before + AllEntries(contents, subdirectory)
        {
          assert contents[i..][1..] == contents[i + 1..];
          ghost var now, rest := archive.entries, AllEntries(contents[i + 1..], subdirectory);
          AddFilesToZip(contents[i], ChildPath(subdirectory, contents[i].name), archive);
          ghost var more := Entries(contents[i], ChildPath(subdirectory, contents[i].name));
          assert now + (more + rest) == (now + more) + rest;
        }
        assert archive.entries + [] == archive.entries;
    }
  }

  // ----- the leaves of a tree, by the names on the way to them

  datatype Located = Located(names: seq<string>, content: Content)

  function Under(name: string, ls: seq<Located>): (r: seq<Located>)
    ensures |r| == |ls|
    ensures forall i | 0 <= i < |ls| :: r[i] == Located([name] + ls[i].names, ls[i].content)
  {
    seq(|ls|, i requires 0 <= i < |ls| => Located([name] + ls[i].names, ls[i].content))
  }

  /** The leaves in pre-order, each with the names from the top. */
  function Leaves(f: File): seq<Located>
    decreases f, 1
  {
    match f
    case Leaf(name, content) => [Located([name], content)]
    case Directory(name, contents) => Under(name, AllLeaves(contents))
  }

  function AllLeaves(fs: seq<File>): seq<Located>
    decreases fs, 0
  {
    if fs == [] then [] else Leaves(fs[0]) + AllLeaves(fs[1..])
  }

  function Joined(names: seq<string>): string {
    if names == [] then ""
    else if |names| == 1 then names[0]
    else names[0] + "/" + Joined(names[1..])
  }

  function Paths(ls: seq<Located>, top: string): (r: seq<Entry>)
    ensures |r| == |ls|
    ensures forall i | 0 <= i < |ls| :: r[i] == Entry(Within(top, ls[i].names), ls[i].content)
  {
    seq(|ls|, i requires 0 <= i < |ls| => Entry(Within(top, ls[i].names), ls[i].content))
  }

  function Within(top: string, names: seq<string>): string {
    if top == "" then Joined(names) else if names == [] then top else top + "/" + Joined(names)
  }

  predicate GoodName(name: string) {
    name != "" && '/' !in name
  }

  /** Names are not empty and hold no slash, and siblings have distinct names. */
  ghost predicate GoodTree(fs: seq<File>)
    decreases fs, 0
  {
    && (forall i | 0 <= i < |fs| :: GoodName(fs[i].name))
    && (forall i, j | 0 <= i < j < |fs| :: fs[i].name != fs[j].name)
    && (forall i | 0 <= i < |fs| && fs[i].Directory? :: GoodTree(fs[i].contents))
  }

  lemma Regroup(top: string, name: string, rest: string)
    ensures top + "/" + name + "/" + rest == top + "/" + (name + "/" + rest)
  {
  }

  lemma WithinStep(top: string, name: string, names: seq<string>)
    requires name != ""
    ensures Within(ChildPath(top, name), names) == Within(top, [name] + names)
  {
    var path := [name] + names;
    assert path[0] == name && path[1..] == names && ChildPath("", name) == name;
    if names == [] {
      assert Joined(path) == name;
    } else {
      assert Joined(path) == name + "/" + Joined(names);
      Regroup(top, name, Joined(names));
    }
  }

  lemma PathsConcat(a: seq<Located>, b: seq<Located>, top: string)
    ensures Paths(a + b, top) == Paths(a, top) + Paths(b, top)
  {
    var all: seq<Located> := a + b;
    forall i | 0 <= i < |all| ensures Paths(all, top)[i] == (Paths(a, top) + Paths(b, top))[i] {
      assert all[i] == if i < |a| then a[i] else b[i - |a|];
    }
  }

  lemma PathsUnder(ls: seq<Located>, name: string, top: string)
    requires name != ""
    ensures Paths(ls, ChildPath(top, name)) == Paths(Under(name, ls), top)
  {
    forall i | 0 <= i < |ls| ensures Paths(ls, ChildPath(top, name))[i] == Paths(Under(name, ls), top)[i] {
      WithinStep(top, name, ls[i].names);
    }
  }

  lemma PathOfLeaf(name: string, content: Content, top: string)
    requires name != ""
    ensures Paths([Located([name], content)], top) == [Entry(ChildPath(top, name), content)]
  {
    WithinStep(top, name, []);
    assert [name] + [] == [name];
  }

  /** The entries are exactly the leaves in pre-order, each under its path from the top. */
  lemma {:induction false} EntriesAreLeaves(fs: seq<File>, top: string)
    requires GoodTree(fs)
    ensures AllEntries(fs, top) == Paths(AllLeaves(fs), top)
    decreases fs, 0
  {
    if fs != [] {
      EntriesAreLeaves(fs[1..], top);
      PathsConcat(Leaves(fs[0]), AllLeaves(fs[1..]), top);
      match fs[0] {
        case Leaf(name, content) =>
          PathOfLeaf(name, content, top);
        case Directory(name, contents) =>
          EntriesAreLeaves(contents, ChildPath(top, name));
          PathsUnder(AllLeaves(contents), name, top);
      }
    }
  }

  // ----- paths tell leaves apart

  function FirstSlash(s: string): (i: nat)
    ensures i <= |s| && '/' !in s[..i] && (i < |s| ==> s[i] == '/')
  {
    if s == "" || s[0] == '/' then 0
    else
      var i := 1 + FirstSlash(s[1..]);
      assert s[..i] == [s[0]] + s[1..][..i - 1];
      i
  }

  /** The names of a path. */
  function Split(path: string): seq<string>
    decreases |path|
  {
    var i := FirstSlash(path);
    if i == |path| then [path] else [path[..i]] + Split(path[i + 1..])
  }

  lemma {:induction false} FirstSlashAt(a: string, b: string)
    requires '/' !in a
    ensures FirstSlash(a) == |a| && FirstSlash(a + "/" + b) == |a|
  {
    if a == "" {
      assert a + "/" + b == "/" + b;
    } else {
      assert (a + "/" + b)[1..] == a[1..] + "/" + b;
      FirstSlashAt(a[1..], b);
    }
  }

  ghost predicate GoodNames(names: seq<string>) {
    names != [] && forall i | 0 <= i < |names| :: GoodName(names[i])
  }

  lemma SplitStep(a: string, b: string)
    requires '/' !in a
    ensures Split(a + "/" + b) == [a] + Split(b)
  {
    var p := a + "/" + b;
    FirstSlashAt(a, b);
    assert p[..|a|] == a && p[|a| + 1..] == b;
  }

  lemma OneName(a: string)
    requires GoodName(a)
    ensures Split(a) == [a] && Joined([a]) == a && a[0] != '/'
  {
    assert a[0] in a;
    FirstSlashAt(a, "");
  }

  lemma MoreNames(names: seq<string>)
    requires |names| > 1 && GoodName(names[0]) && Split(Joined(names[1..])) == names[1..]
    ensures Split(Joined(names)) == names
    ensures Joined(names) != "" && Joined(names)[0] != '/'
  {
    OneName(names[0]);
    SplitStep(names[0], Joined(names[1..]));
    assert Joined(names) == names[0] + "/" + Joined(names[1..]);
    assert names == [names[0]] + names[1..];
  }

  /** A path splits into the names it was joined from, and does not start with a slash. */
  lemma {:induction false} SplitJoined(names: seq<string>)
    requires GoodNames(names)
    ensures Split(Joined(names)) == names
    ensures Joined(names) != "" && Joined(names)[0] != '/'
  {
    if |names| == 1 {
      OneName(names[0]);
      assert names == [names[0]];
    } else {
      SplitJoined(names[1..]);
      MoreNames(names);
    }
  }

  lemma {:induction false} LeavesAreGood(fs: seq<File>)
    requires GoodTree(fs)
    ensures forall i | 0 <= i < |AllLeaves(fs)| :: GoodNames(AllLeaves(fs)[i].names)
    decreases fs, 0
  {
    if fs != [] {
      LeavesAreGood(fs[1..]);
      match fs[0] {
        case Leaf(_, _) =>
        case Directory(name, contents) =>
          LeavesAreGood(contents);
          var ls := AllLeaves(contents);
          forall i | 0 <= i < |ls| ensures GoodNames(Leaves(fs[0])[i].names) {
            assert Leaves(fs[0])[i].names == [name] + ls[i].names;
          }
      }
      var ls, rest := Leaves(fs[0]), AllLeaves(fs[1..]);
      var all: seq<Located> := ls + rest;
      forall i | 0 <= i < |all| ensures GoodNames(all[i].names) {
        assert all[i] == if i < |ls| then ls[i] else rest[i - |ls|];
      }
    }
  }

  /** The first name of each leaf is the name of a file at the top. */
  lemma {:induction false} FirstNames(fs: seq<File>)
    ensures forall i | 0 <= i < |AllLeaves(fs)| ::
              && AllLeaves(fs)[i].names != []
              && exists j | 0 <= j < |fs| :: fs[j].name == AllLeaves(fs)[i].names[0]
  {
    if fs != [] {
      FirstNames(fs[1..]);
      var ls, rest := Leaves(fs[0]), AllLeaves(fs[1..]);
      forall i | 0 <= i < |AllLeaves(fs)|
        ensures AllLeaves(fs)[i].names != [] && exists j | 0 <= j < |fs| :: fs[j].name == AllLeaves(fs)[i].names[0]
      {
        if i < |ls| {
          assert fs[0].name == AllLeaves(fs)[i].names[0];
        } else {
          assert AllLeaves(fs)[i] == rest[i - |ls|];
          var j :| 0 <= j < |fs[1..]| && fs[1..][j].name == rest[i - |ls|].names[0];
          assert fs[j + 1].name == AllLeaves(fs)[i].names[0];
        }
      }
    }
  }

  /** Different leaves have different names on the way to them. */
  lemma {:induction false} LeavesAreDistinct(fs: seq<File>)
    requires GoodTree(fs)
    ensures forall i, j | 0 <= i < j < |AllLeaves(fs)| :: AllLeaves(fs)[i].names != AllLeaves(fs)[j].names
    decreases fs, 0
  {
    if fs != [] {
      var f, ls, rest := fs[0], Leaves(fs[0]), AllLeaves(fs[1..]);
      LeavesAreDistinct(fs[1..]);
      if f.Directory? {
        LeavesAreDistinct(f.contents);
      }
      FirstNames(fs[1..]);
      var all: seq<Located> := ls + rest;
      forall i, j | 0 <= i < j < |all| ensures all[i].names != all[j].names {
        if j < |ls| {
          var inner := AllLeaves(f.contents);
          assert ls[i].names[1..] == inner[i].names && ls[j].names[1..] == inner[j].names;
        } else if i < |ls| {
          assert all[j] == rest[j - |ls|];
          var k :| 0 <= k < |fs[1..]| && fs[1..][k].name == rest[j - |ls|].names[0];
          assert ls[i].names[0] == f.name != fs[k + 1].name;
        }
      }
    }
  }

  /** All paths in the archive of a directory are pairwise distinct, and none starts with a slash. */
  lemma PathsAreDistinct(fs: seq<File>)
    requires GoodTree(fs)
    ensures var es := AllEntries(fs, "");
            && (forall i, j | 0 <= i < j < |es| :: es[i].path != es[j].path)
            && (forall i | 0 <= i < |es| :: es[i].path != "" && es[i].path[0] != '/')
  {
    var ls := AllLeaves(fs);
    EntriesAreLeaves(fs, "");
    LeavesAreGood(fs);
    LeavesAreDistinct(fs);
    forall i | 0 <= i < |ls|
      ensures Split(Joined(ls[i].names)) == ls[i].names && Joined(ls[i].names) != "" && Joined(ls[i].names)[0] != '/'
    {
      SplitJoined(ls[i].names);
    }
  }

  // ----- the tree, rebuilt

  /** The tree without the directories that hold no leaf, which the archive does not record. */
  function Pruned(fs: seq<File>): seq<File>
    decreases fs, 0
  {
    if fs == [] then [] else PrunedFile(fs[0]) + Pruned(fs[1..])
  }

  function PrunedFile(f: File): seq<File>
    decreases f, 1
  {
    match f
    case Leaf(_, _) => [f]
    case Directory(name, contents) => if AllLeaves(contents) == [] then [] else [Directory(name, Pruned(contents))]
  }

  function Weight(ls: seq<Located>): nat {
    if ls == [] then 0 else |ls[0].names| + Weight(ls[1..])
  }

  predicate Named(ls: seq<Located>) {
    forall i | 0 <= i < |ls| :: ls[i].names != []
  }

  /** How many leaves at the front lie in the directory `name`. */
  function RunLength(ls: seq<Located>, name: string): (k: nat)
    requires Named(ls)
    ensures k <= |ls|
    ensures forall i | 0 <= i < k :: |ls[i].names| > 1
  {
    if ls == [] || ls[0].names[0] != name || |ls[0].names| == 1 then 0 else 1 + RunLength(ls[1..], name)
  }

  function Inside(ls: seq<Located>): (r: seq<Located>)
    requires Named(ls)
    ensures |r| == |ls| && forall i | 0 <= i < |ls| :: r[i] == Located(ls[i].names[1..], ls[i].content)
  {
    seq(|ls|, i requires 0 <= i < |ls| => Located(ls[i].names[1..], ls[i].content))
  }

  lemma {:induction false} WeightInside(ls: seq<Located>)
    requires Named(ls)
    ensures Weight(Inside(ls)) + |ls| == Weight(ls)
  {
    if ls != [] {
      WeightInside(ls[1..]);
      assert Inside(ls)[1..] == Inside(ls[1..]);
    }
  }

  lemma {:induction false} WeightConcat(a: seq<Located>, b: seq<Located>)
    ensures Weight(a + b) == Weight(a) + Weight(b)
  {
    if a == [] {
      assert a + b == b;
    } else {
      assert (a + b)[1..] == a[1..] + b;
      WeightConcat(a[1..], b);
    }
  }

  lemma WeightSplit(ls: seq<Located>, k: nat)
    requires Named(ls) && 0 < k <= |ls|
    ensures Weight(Inside(ls[..k])) < Weight(ls)
    ensures Weight(ls[k..]) < Weight(ls)
  {
    assert ls == ls[..k] + ls[k..];
    WeightConcat(ls[..k], ls[k..]);
    WeightInside(ls[..k]);
  }

  /** A tree from located leaves: neighbours with the same first name share a directory. */
  function Rebuilt(ls: seq<Located>): seq<File>
    requires Named(ls)
    decreases Weight(ls)
  {
    if ls == [] then []
    else if |ls[0].names| == 1 then
      WeightSplit(ls, 1);
      [Leaf(ls[0].names[0], ls[0].content)] + Rebuilt(ls[1..])
    else
      var k := RunLength(ls, ls[0].names[0]);
      WeightSplit(ls, k);
      [Directory(ls[0].names[0], Rebuilt(Inside(ls[..k])))] + Rebuilt(ls[k..])
  }

  lemma {:induction false} RunLengthUnder(name: string, ls: seq<Located>, rest: seq<Located>)
    requires Named(ls) && Named(rest) && (rest != [] ==> rest[0].names[0] != name)
    ensures Named(Under(name, ls) + rest) && RunLength(Under(name, ls) + rest, name) == |ls|
  {
    var all := Under(name, ls) + rest;
    if ls == [] {
      assert all == rest;
    } else {
      RunLengthUnder(name, ls[1..], rest);
      assert all[1..] == Under(name, ls[1..]) + rest;
    }
  }

  lemma RebuiltDirectory(name: string, ls: seq<Located>, rest: seq<Located>)
    requires Named(ls) && ls != [] && Named(rest) && (rest != [] ==> rest[0].names[0] != name)
    ensures Named(Under(name, ls) + rest)
    ensures Rebuilt(Under(name, ls) + rest) == [Directory(name, Rebuilt(ls))] + Rebuilt(rest)
  {
    var all := Under(name, ls) + rest;
    RunLengthUnder(name, ls, rest);
    assert all[0] == Under(name, ls)[0];
    assert all[..|ls|] == Under(name, ls) && all[|ls|..] == rest;
    assert Inside(Under(name, ls)) == ls;
  }

  /** One file and the leaves of the files after it. */
  lemma RebuiltFile(f: File, rest: seq<Located>)
    requires Named(rest) && (rest != [] ==> rest[0].names[0] != f.name)
    requires f.Directory? ==> Named(AllLeaves(f.contents)) && Rebuilt(AllLeaves(f.contents)) == Pruned(f.contents)
    ensures Named(Leaves(f) + rest) && Rebuilt(Leaves(f) + rest) == PrunedFile(f) + Rebuilt(rest)
  {
    match f {
      case Leaf(name, content) =>
        assert ([Located([name], content)] + rest)[1..] == rest;
      case Directory(name, contents) =>
        if AllLeaves(contents) == [] {
          assert Under(name, []) + rest == rest && [] + Rebuilt(rest) == Rebuilt(rest);
        } else {
          RebuiltDirectory(name, AllLeaves(contents), rest);
        }
    }
  }

  /** Rebuilding from the leaves gives the tree without its empty directories. */
  lemma {:induction false} RebuiltIsPruned(fs: seq<File>)
    requires GoodTree(fs)
    ensures Named(AllLeaves(fs)) && Rebuilt(AllLeaves(fs)) == Pruned(fs)
    decreases fs, 0
  {
    if fs != [] {
      RebuiltIsPruned(fs[1..]);
      FirstNames(fs[1..]);
      if fs[0].Directory? {
        RebuiltIsPruned(fs[0].contents);
      }
      RebuiltFile(fs[0], AllLeaves(fs[1..]));
    }
  }

  /** The leaves that the entries of an archive name. */
  function LocatedEntries(es: seq<Entry>): (r: seq<Located>)
    ensures |r| == |es| && forall i | 0 <= i < |es| :: r[i] == Located(Split(es[i].path), es[i].content)
  {
    seq(|es|, i requires 0 <= i < |es| => Located(Split(es[i].path), es[i].content))
  }

  /** From the archive alone the tree comes back, without its empty directories. */
  lemma ArchiveRoundTrip(fs: seq<File>)
    requires GoodTree(fs)
    ensures Named(LocatedEntries(AllEntries(fs, ""))) && Rebuilt(LocatedEntries(AllEntries(fs, ""))) == Pruned(fs)
  {
    var ls := AllLeaves(fs);
    EntriesAreLeaves(fs, "");
    LeavesAreGood(fs);
    forall i | 0 <= i < |ls| ensures LocatedEntries(AllEntries(fs, ""))[i] == ls[i] {
      SplitJoined(ls[i].names);
    }
    assert LocatedEntries(AllEntries(fs, "")) == ls;
    RebuiltIsPruned(fs);
  }
}
