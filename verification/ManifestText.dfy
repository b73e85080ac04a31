/**
  The text an include manifest is digested as: the sorted names, one to a line.
  Equal digests mean equal texts; when equal texts mean equal names is another
  question, since a file name may hold a newline.
 */
module ManifestText {
  import opened Cache
  import opened IncludeManifest
  import Paths

  // Lines

  function SplitLines(s: string): (r: seq<string>)
    ensures |r| >= 1
  {
    if s == [] then [[]]
    else if s[0] == '\n' then [[]] + SplitLines(s[1..])
    else Prepend(s[0], SplitLines(s[1..]))
  }

  function Prepend(c: char, lines: seq<string>): (r: seq<string>)
    requires lines != []
    ensures |r| == |lines|
  {
    [[c] + lines[0]] + lines[1..]
  }

  lemma PrependAppends(c: char, a: seq<string>, b: seq<string>)
    requires a != []
    ensures Prepend(c, a + b) == Prepend(c, a) + b
  {
    assert (a + b)[1..] == a[1..] + b;
  }

  /** `join("\n")`. */
  function Lay(names: seq<string>): string
  {
    if names == [] then ""
    else if |names| == 1 then names[0]
    else names[0] + "\n" + Lay(names[1..])
  }

  /** The lines the names take up. */
  function LinesOf(names: seq<string>): seq<string>
  {
    if names == [] then [] else SplitLines(names[0]) + LinesOf(names[1..])
  }

  lemma {:induction false} SplitOne(name: string)
    requires '\n' !in name
    ensures SplitLines(name) == [name]
  {
    if name != [] {
      SplitOne(name[1..]);
      assert [name[0]] + name[1..] == name;
    }
  }

  lemma {:induction false} SplitTwo(a: string, b: string)
    ensures SplitLines(a + "\n" + b) == SplitLines(a) + SplitLines(b)
  {
    var s := a + "\n" + b;
    if a == [] {
      assert s[1..] == b;
    } else {
      SplitTwo(a[1..], b);
      assert s[1..] == a[1..] + "\n" + b && s[0] == a[0];
      var first, second := SplitLines(a[1..]), SplitLines(b);
      PrependAppends(a[0], first, second);
      assert [[]] + (first + second) == ([[]] + first) + second;
    }
  }

  lemma {:induction false} LaidLines(names: seq<string>)
    requires names != []
    ensures SplitLines(Lay(names)) == LinesOf(names)
  {
    if |names| == 1 {
      assert LinesOf(names[1..]) == [];
    } else {
      LaidLines(names[1..]);
      SplitTwo(names[0], Lay(names[1..]));
    }
  }

  lemma {:induction false} LaySplit(s: string)
    ensures Lay(SplitLines(s)) == s
  {
    if s != [] {
      LaySplit(s[1..]);
      var rest := SplitLines(s[1..]);
      if s[0] == '\n' {
        assert ([[]] + rest)[1..] == rest;
        assert [] + "\n" + s[1..] == s;
      } else {
        var whole := [[s[0]] + rest[0]] + rest[1..];
        assert whole[1..] == rest[1..];
        if |rest| > 1 {
          assert [s[0]] + rest[0] + "\n" + Lay(rest[1..]) == [s[0]] + (rest[0] + "\n" + Lay(rest[1..]));
        }
        assert [s[0]] + s[1..] == s;
      }
    }
  }

  /** Two non-empty lists of names give the same text exactly when they take up the same lines. */
  lemma SameTextSameLines(a: seq<string>, b: seq<string>)
    requires a != [] && b != []
    ensures Lay(a) == Lay(b) <==> LinesOf(a) == LinesOf(b)
  {
    LaidLines(a);
    LaidLines(b);
    LaySplit(Lay(a));
    LaySplit(Lay(b));
  }

  lemma {:induction false} OneLineEach(names: seq<string>)
    requires forall k :: 0 <= k < |names| ==> '\n' !in names[k]
    ensures LinesOf(names) == names
  {
    if names != [] {
      OneLineEach(names[1..]);
      SplitOne(names[0]);
      assert [names[0]] + names[1..] == names;
    }
  }

  // The sorted listing

  /** The order of `sort` on strings. */
  predicate Precedes(a: string, b: string)
  {
    a == [] || (b != [] && (a[0] < b[0] || (a[0] == b[0] && Precedes(a[1..], b[1..]))))
  }

  lemma {:induction false} PrecedesIsTotal(a: string, b: string)
    ensures Precedes(a, b) || Precedes(b, a)
  {
    if a != [] && b != [] && a[0] == b[0] {
      PrecedesIsTotal(a[1..], b[1..]);
    }
  }

  lemma {:induction false} PrecedesChains(a: string, b: string, c: string)
    requires Precedes(a, b) && Precedes(b, c)
    ensures Precedes(a, c)
  {
    if a != [] && a[0] == b[0] == c[0] {
      PrecedesChains(a[1..], b[1..], c[1..]);
    }
  }

  ghost predicate IsFirst(names: multiset<Path>, x: Path)
  {
    x in names && forall y :: y in names ==> Precedes(Paths.Join(x), Paths.Join(y))
  }

  lemma {:induction false} HasFirst(names: multiset<Path>)
    requires names != multiset{}
    ensures exists x :: IsFirst(names, x)
    decreases |names|
  {
    var x :| x in names;
    var rest := names - multiset{x};
    PrecedesIsTotal(Paths.Join(x), Paths.Join(x));
    assert forall z :: z in names ==> z == x || z in rest;
    if rest == multiset{} {
      assert IsFirst(names, x);
    } else {
      HasFirst(rest);
      var y :| IsFirst(rest, y);
      PrecedesIsTotal(Paths.Join(x), Paths.Join(y));
      var first := if Precedes(Paths.Join(x), Paths.Join(y)) then x else y;
      forall z | z in names ensures Precedes(Paths.Join(first), Paths.Join(z)) {
        if z in rest && first == x {
          PrecedesChains(Paths.Join(x), Paths.Join(y), Paths.Join(z));
        }
      }
      assert IsFirst(names, first);
    }
  }

  ghost function Listing(names: multiset<Path>): (list: seq<Path>)
    ensures multiset(list) == names
    decreases |names|
  {
    if names == multiset{} then [] else
    HasFirst(names);
    var first :| IsFirst(names, first);
    assert multiset{first} + (names - multiset{first}) == names;
    [first] + Listing(names - multiset{first})
  }

  function Joined(list: seq<Path>): seq<string>
  {
    if list == [] then [] else [Paths.Join(list[0])] + Joined(list[1..])
  }

  /** The text of a listing. */
  ghost function Text(names: multiset<Path>): string { Lay(Joined(Listing(names))) }

  ghost predicate OneLine(names: multiset<Path>)
  {
    forall x :: x in names ==> OneLinePath(x)
  }

  /** A relative path of proper names, none with a newline. */
  predicate OneLinePath(x: Path)
  {
    x != [] && Paths.GoodNames(x) && forall k :: 0 <= k < |x| ==> '\n' !in x[k]
  }

  lemma {:induction false} JoinIsOneLine(x: Path)
    requires forall k :: 0 <= k < |x| ==> '\n' !in x[k]
    ensures '\n' !in Paths.Join(x)
  {
    if |x| > 1 {
      JoinIsOneLine(x[1..]);
    }
  }

  /** Joining paths of proper one-line names loses nothing. */
  lemma {:induction false} JoinedTells(a: seq<Path>, b: seq<Path>)
    requires (forall k :: 0 <= k < |a| ==> OneLinePath(a[k])) && (forall k :: 0 <= k < |b| ==> OneLinePath(b[k]))
    requires Joined(a) == Joined(b)
    ensures a == b
  {
    if a != [] && b != [] {
      assert Joined(a)[0] == Joined(b)[0] && Joined(a)[1..] == Joined(b)[1..];
      Paths.SplitJoin(a[0]);
      Paths.SplitJoin(b[0]);
      JoinedTells(a[1..], b[1..]);
      assert a == [a[0]] + a[1..] && b == [b[0]] + b[1..];
    }
  }

  lemma {:induction false} JoinedIsOneLine(list: seq<Path>)
    requires forall k :: 0 <= k < |list| ==> OneLinePath(list[k])
    ensures |Joined(list)| == |list|
    ensures forall k :: 0 <= k < |list| ==> '\n' !in Joined(list)[k] && Joined(list)[k] != ""
  {
    if list != [] {
      JoinedIsOneLine(list[1..]);
      JoinIsOneLine(list[0]);
      Paths.SplitJoin(list[0]);
    }
  }

  lemma LaidIsNotEmpty(names: seq<string>)
    requires names != [] && names[0] != ""
    ensures Lay(names) != ""
  {
  }

  /** Without newlines in names, equal texts mean equal names. */
  lemma TextTellsNames(a: multiset<Path>, b: multiset<Path>)
    requires OneLine(a) && OneLine(b)
    ensures Text(a) == Text(b) <==> a == b
  {
    if Text(a) == Text(b) {
      var la, lb := Listing(a), Listing(b);
      assert forall k :: 0 <= k < |la| ==> la[k] in multiset(la);
      assert forall k :: 0 <= k < |lb| ==> lb[k] in multiset(lb);
      JoinedIsOneLine(la);
      JoinedIsOneLine(lb);
      OneLineEach(Joined(la));
      OneLineEach(Joined(lb));
      if la != [] {
        LaidIsNotEmpty(Joined(la));
      }
      if lb != [] {
        LaidIsNotEmpty(Joined(lb));
      }
      if la != [] && lb != [] {
        SameTextSameLines(Joined(la), Joined(lb));
      }
      JoinedTells(la, lb);
    }
  }

  // The manifests of a tree

  /** Every name in the tree is a proper one without a newline. */
  predicate OneLineNames(entries: seq<Entry>)
    decreases entries
  {
    forall e :: e in entries ==> OneLineEntry(e)
  }

  predicate OneLineEntry(e: Entry)
    decreases e
  {
    Paths.GoodName(e.name) && '\n' !in e.name && (e.node.Dir? ==> OneLineNames(e.node.entries))
  }

  predicate OneLineTree(fs: FileSystem)
  {
    OneLineNames(fs.root) && forall id :: id in fs.links && fs.links[id].Dir? ==> OneLineNames(fs.links[id].entries)
  }

  lemma {:induction false} BagIsOneLine(entries: seq<Entry>, prefix: Path, x: Path)
    requires OneLineNames(entries) && (prefix == [] || OneLinePath(prefix)) && x in Bag(entries, prefix)
    ensures OneLinePath(x)
    decreases entries
  {
    if x in EntryBag(entries[0], prefix) {
      var e, longer := entries[0], prefix + [entries[0].name];
      assert OneLineEntry(e);
      assert OneLinePath(longer);
      if e.node.Dir? {
        BagIsOneLine(e.node.entries, longer, x);
      }
    } else {
      BagIsOneLine(entries[1..], prefix, x);
    }
  }

  lemma ResolvedIsOneLine(fs: FileSystem, path: Path)
    requires OneLineTree(fs)
    ensures Resolve(fs, path).Found? && Resolve(fs, path).node.Dir? ==> OneLineNames(Resolve(fs, path).node.entries)
    decreases |path|
  {
    if path != [] {
      var up := Resolve(fs, path[..|path| - 1]);
      ResolvedIsOneLine(fs, path[..|path| - 1]);
      if up.Found? && up.node.Dir? {
        FindIsEntry(up.node.entries, path[|path| - 1]);
      }
    }
  }

  /** What is digested for a directory. */
  ghost function ManifestTextOf(fs: FileSystem, directory: Path): Result<string, ()>
  {
    match Manifest(fs, directory)
    case Ok(names) => Ok(Text(names))
    case Err(e) => Err(e)
  }

  /** In a tree without newlines in names, no listing takes more lines than it has names. */
  lemma ManifestIsOneLine(fs: FileSystem, directory: Path)
    requires OneLineTree(fs) && Manifest(fs, directory).Ok?
    ensures OneLine(Manifest(fs, directory).value)
  {
    ResolvedIsOneLine(fs, directory);
    var found := Resolve(fs, directory);
    if found.Found? {
      forall x | x in Bag(found.node.entries, []) ensures OneLinePath(x) {
        BagIsOneLine(found.node.entries, [], x);
      }
    }
  }

  /** What is listed for the directory, if it can be listed, takes one line a name. */
  ghost predicate OneLineManifest(fs: FileSystem, directory: Path)
  {
    Manifest(fs, directory).Ok? ==> OneLine(Manifest(fs, directory).value)
  }

  /** Where both listings take one line a name, a directory's text tells its manifest. */
  lemma TextTellsManifest(fs: FileSystem, later: FileSystem, directory: Path)
    requires OneLineManifest(fs, directory) && OneLineManifest(later, directory)
    ensures ManifestTextOf(fs, directory) == ManifestTextOf(later, directory)
       <==> Manifest(fs, directory) == Manifest(later, directory)
  {
    if Manifest(fs, directory).Ok? && Manifest(later, directory).Ok? {
      TextTellsNames(Manifest(fs, directory).value, Manifest(later, directory).value);
    }
  }

  function Place(c: Candidate): Path { if c.identity.Some? then c.identity.value else c.directory }

  /**
    Reducing the directories loses nothing of what is digested: when what is
    listed for the kept directories takes one line a name, before and after,
    unchanged texts for them mean unchanged texts for all.
   */
  lemma ReductionLosesNoDigest(fs: FileSystem, later: FileSystem, candidates: set<Candidate>, minimal: seq<Candidate>)
    requires WellFormed(fs) && WellFormed(later)
    requires forall k :: k in minimal ==> OneLineManifest(fs, Place(k)) && OneLineManifest(later, Place(k))
    requires forall c :: c in candidates ==> Represents(fs, minimal, c)
    requires forall k, c :: k in minimal && c in candidates && CoveredBy(fs, k, c) ==> CoveredBy(later, k, c)
    requires forall k :: k in minimal ==> ManifestTextOf(fs, Place(k)) == ManifestTextOf(later, Place(k))
    ensures forall c :: c in candidates ==> ManifestTextOf(fs, Place(c)) == ManifestTextOf(later, Place(c))
  {
    forall k | k in minimal ensures CandidateManifest(fs, k) == CandidateManifest(later, k) {
      TextTellsManifest(fs, later, Place(k));
    }
    ReductionLosesNothing(fs, later, candidates, minimal);
    forall c | c in candidates ensures ManifestTextOf(fs, Place(c)) == ManifestTextOf(later, Place(c)) {
      assert CandidateManifest(fs, c) == CandidateManifest(later, c);
    }
  }

  // Newlines in names can hide a change.

  /** In directory `a`: one file in `d`, whose name is that of two others on two lines. */
  function Before(a: string, d: string, x: string, y: string): FileSystem
  {
    FileSystem([Entry(a, Dir([Entry(d, Dir([Entry(x + "\n" + y, File)]))]))], map[])
  }

  /** The one in `d`, the other beside `d`. */
  function After(a: string, d: string, x: string, y: string): FileSystem
  {
    FileSystem([Entry(a, Dir([Entry(d, Dir([Entry(x, File)])), Entry(y, File)]))], map[])
  }

  lemma {:induction false} NoDot(name: string)
    requires '.' !in name
    ensures Paths.LastDot(name) == None && IsIncludable(name)
  {
    if name != [] {
      NoDot(name[..|name| - 1]);
    }
  }

  lemma OneFile(name: string, prefix: Path)
    requires '.' !in name
    ensures Bag([Entry(name, File)], prefix) == multiset{prefix + [name]}
  {
    NoDot(name);
    assert Bag([Entry(name, File)][1..], prefix) == multiset{};
  }

  lemma DirWithFile(d: string, f: string)
    requires '.' !in f
    ensures EntryBag(Entry(d, Dir([Entry(f, File)])), []) == multiset{[d, f]}
    ensures Bag([Entry(d, Dir([Entry(f, File)]))], []) == multiset{[d, f]}
  {
    OneFile(f, [d]);
    assert [] + [d] == [d] && [d] + [f] == [d, f];
    assert Bag([Entry(d, Dir([Entry(f, File)]))][1..], []) == multiset{};
  }

  lemma DirAndFile(d: string, f: string, g: string)
    requires '.' !in f && '.' !in g
    ensures Bag([Entry(d, Dir([Entry(f, File)])), Entry(g, File)], []) == multiset{[d, f], [g]}
  {
    DirWithFile(d, f);
    OneFile(g, []);
    assert [] + [g] == [g];
    var entries := [Entry(d, Dir([Entry(f, File)])), Entry(g, File)];
    assert entries[1..] == [Entry(g, File)];
  }

  lemma OneListing(x: Path)
    ensures Listing(multiset{x}) == [x] && Text(multiset{x}) == Paths.Join(x)
  {
    var list := Listing(multiset{x});
    assert |list| == |multiset(list)| == 1;
    assert list[0] in multiset(list);
    assert Joined(list[1..]) == [];
  }

  lemma ListingStarts(names: multiset<Path>, x: Path)
    requires x in names && forall z :: IsFirst(names, z) ==> z == x
    ensures Listing(names) == [x] + Listing(names - multiset{x})
  {
    HasFirst(names);
  }

  lemma TwoInOrder(x: Path, y: Path)
    requires !Precedes(Paths.Join(y), Paths.Join(x))
    ensures Text(multiset{x, y}) == Paths.Join(x) + "\n" + Paths.Join(y)
  {
    var names := multiset{x, y};
    assert x in names && y in names;
    assert forall z :: IsFirst(names, z) ==> z == x;
    ListingStarts(names, x);
    assert names - multiset{x} == multiset{y};
    OneListing(y);
    assert [x] + [y] == [x, y];
    LayTwo(x, y);
  }

  lemma LayTwo(x: Path, y: Path)
    ensures Lay(Joined([x, y])) == Paths.Join(x) + "\n" + Paths.Join(y)
  {
    assert [x, y][1..] == [y] && [y][1..] == [];
    assert Joined([y]) == [Paths.Join(y)];
    var laid := Joined([x, y]);
    assert laid == [Paths.Join(x), Paths.Join(y)] && laid[1..] == [Paths.Join(y)];
  }

  lemma OneLevel(a: string, entries: seq<Entry>)
    ensures var fs := FileSystem([Entry(a, Dir(entries))], map[]);
            LStat(fs, [a]) == Resolve(fs, [a]) == Found(Dir(entries))
  {
    assert [a][..0] == [];
  }

  lemma TwoLevels(a: string, entries: seq<Entry>, d: string, inner: seq<Entry>)
    requires Find(entries, d) == Some(Dir(inner))
    ensures
      var fs := FileSystem([Entry(a, Dir(entries))], map[]);
      && Manifest(fs, [a]) == Ok(Bag(entries, [])) && Manifest(fs, [a, d]) == Ok(Bag(inner, []))
      && Covers(fs, [a], [a, d])
  {
    var fs := FileSystem([Entry(a, Dir(entries))], map[]);
    OneLevel(a, entries);
    assert [a, d][..1] == [a] && [a, d][..2] == [a, d];
    assert LStat(fs, [a, d]) == Found(Dir(inner));
  }

  lemma BeforeManifests(a: string, d: string, x: string, y: string)
    requires '.' !in x && '.' !in y
    ensures
      var fs := Before(a, d, x, y);
      && Manifest(fs, [a]) == Ok(multiset{[d, x + "\n" + y]}) && Manifest(fs, [a, d]) == Ok(multiset{[x + "\n" + y]})
      && Covers(fs, [a], [a, d])
  {
    var name := x + "\n" + y;
    DirWithFile(d, name);
    OneFile(name, []);
    assert [] + [name] == [name];
    TwoLevels(a, [Entry(d, Dir([Entry(name, File)]))], d, [Entry(name, File)]);
  }

  lemma AfterManifests(a: string, d: string, x: string, y: string)
    requires '.' !in x && '.' !in y
    ensures
      var fs := After(a, d, x, y);
      && Manifest(fs, [a]) == Ok(multiset{[d, x], [y]}) && Manifest(fs, [a, d]) == Ok(multiset{[x]})
      && Covers(fs, [a], [a, d])
  {
    DirAndFile(d, x, y);
    OneFile(x, []);
    assert [] + [x] == [x];
    TwoLevels(a, [Entry(d, Dir([Entry(x, File)])), Entry(y, File)], d, [Entry(x, File)]);
  }

  lemma JoinTwo(d: string, name: string)
    ensures Paths.Join([d, name]) == d + "/" + name && Paths.Join([name]) == name
  {
    assert [d, name][1..] == [name];
  }

  lemma OnTwoLines(d: string, x: string, y: string)
    ensures d + "/" + (x + "\n" + y) == (d + "/" + x) + "\n" + y
  {
  }

  lemma ExampleTexts(d: string, x: string, y: string)
    requires !Precedes(y, d + "/" + x)
    ensures Text(multiset{[d, x + "\n" + y]}) == Text(multiset{[d, x], [y]})
  {
    OneListing([d, x + "\n" + y]);
    JoinTwo(d, x + "\n" + y);
    JoinTwo(d, x);
    JoinTwo(d, y);
    OnTwoLines(d, x, y);
    TwoInOrder([d, x], [y]);
  }

  lemma ExamplesAreWellFormed(a: string, d: string, x: string, y: string)
    requires d != y
    ensures WellFormed(Before(a, d, x, y)) && WellFormed(After(a, d, x, y))
  {
  }

  /**
    With a newline in a name, equal texts for a kept directory need not mean
    equal texts for one it covers: the one file in `d` is replaced by two, one of
    them outside `d`, and the text of the directory above stays the same.
   */
  lemma NewlinesHideAChange(a: string, d: string, x: string, y: string)
    requires '.' !in x && '.' !in y && d != y && !Precedes(y, d + "/" + x)
    ensures
      var fs, later := Before(a, d, x, y), After(a, d, x, y);
      && WellFormed(fs) && WellFormed(later) && Covers(fs, [a], [a, d]) && Covers(later, [a], [a, d])
      && ManifestTextOf(fs, [a]) == ManifestTextOf(later, [a])
      && ManifestTextOf(fs, [a, d]) != ManifestTextOf(later, [a, d])
  {
    BeforeManifests(a, d, x, y);
    AfterManifests(a, d, x, y);
    ExampleTexts(d, x, y);
    OneListing([x + "\n" + y]);
    OneListing([x]);
    ExamplesAreWellFormed(a, d, x, y);
    assert |x + "\n" + y| != |x|;
  }
}
