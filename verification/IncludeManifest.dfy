/**
  Include-directory manifests: the names a recursive walk of a directory finds,
  and the reduction of a set of directories to a covering antichain. Directory
  symlinks are followed when a walk starts at one and never beneath it.
 */
module IncludeManifest {
  import opened Cache
  import Paths

  type Path = seq<string>

  /** Directory entries in the order the system lists them; a link leads to what its number resolves to. */
  datatype Node = File | Link(id: nat) | Dir(entries: seq<Entry>)
  datatype Entry = Entry(name: string, node: Node)

  /** A tree and what each symlink in it leads to; a missing number is a dangling link. */
  datatype FileSystem = FileSystem(root: seq<Entry>, links: map<nat, Node>)

  const MAX_MANIFEST_ENTRIES: nat := 16 * 1024

  const INCLUDABLE_EXTENSIONS: set<string> := {
    "c", "c++", "cc", "cpp", "cxx", "def", "gch", "h", "h++", "hh", "hpp", "hxx", "inc", "inl", "ipp", "pch", "s",
    "tcc"}

  function ToLower(s: string): string
  {
    if s == [] then []
    else [if 'A' <= s[0] <= 'Z' then ((s[0] as int) + 32) as char else s[0]] + ToLower(s[1..])
  }

  /** Whether a file name could be what an `#include` names. */
  predicate IsIncludable(name: string)
  {
    match Paths.LastDot(name)
    case Some(k) =>
      if 0 < k < |name| then ToLower(name[k + 1..]) in INCLUDABLE_EXTENSIONS else name != [] && name[0] != '.'
    case None => true
  }

  /** Equal but for letters that are capital in the first and small in the second. */
  ghost predicate Folds(a: string, b: string)
  {
    && |a| == |b|
    && forall i :: 0 <= i < |a| ==>
         if 'A' <= a[i] <= 'Z' then b[i] as int == a[i] as int + 32 else b[i] == a[i]
  }

  lemma {:induction false} LowerFolds(a: string, b: string)
    ensures ToLower(a) == b <==> Folds(a, b)
  {
    if a != [] && b != [] {
      LowerFolds(a[1..], b[1..]);
      assert b == [b[0]] + b[1..];
      if Folds(a, b) {
        assert forall i :: 0 <= i < |a[1..]| ==> a[1..][i] == a[i + 1] && b[1..][i] == b[i + 1];
      }
      if ToLower(a) == b {
        forall i | 0 <= i < |a|
          ensures if 'A' <= a[i] <= 'Z' then b[i] as int == a[i] as int + 32 else b[i] == a[i]
        {
          if i > 0 {
            assert a[i] == a[1..][i - 1] && b[i] == b[1..][i - 1];
          }
        }
      }
    }
  }

  lemma {:induction false} LastDotIsLast(name: string)
    ensures Paths.LastDot(name).None? <==> '.' !in name
    ensures Paths.LastDot(name).Some? ==>
      var k := Paths.LastDot(name).value; k < |name| && name[k] == '.' && '.' !in name[k + 1..]
  {
    if name != [] && name[|name| - 1] != '.' {
      var front := name[..|name| - 1];
      LastDotIsLast(front);
      assert name == front + [name[|name| - 1]];
      if Paths.LastDot(front).Some? {
        var k := Paths.LastDot(front).value;
        assert name[k + 1..] == front[k + 1..] + [name[|name| - 1]];
      }
    }
  }

  /** A stem, a dot and one of the extensions, in any case. */
  ghost predicate Extended(name: string, stem: string, extension: string)
  {
    && name == stem + "." + extension && stem != "" && '.' !in extension
    && exists known :: known in INCLUDABLE_EXTENSIONS && Folds(extension, known)
  }

  lemma {:induction false} OneLastDot(name: string, stem: string, extension: string)
    requires name == stem + "." + extension && '.' !in extension
    ensures Paths.LastDot(name) == Some(|stem|) && name[|stem| + 1..] == extension
    decreases |extension|
  {
    if extension != [] {
      var front := extension[..|extension| - 1];
      assert name[..|name| - 1] == stem + "." + front;
      OneLastDot(name[..|name| - 1], stem, front);
    }
  }

  /** A name is includable exactly when it has no dot at all or a known extension after a stem. */
  lemma IncludableExactly(name: string)
    ensures IsIncludable(name) <==> '.' !in name || exists stem, extension :: Extended(name, stem, extension)
  {
    LastDotIsLast(name);
    if Paths.LastDot(name).Some? {
      var k := Paths.LastDot(name).value;
      var extension := name[k + 1..];
      LowerFolds(extension, ToLower(extension));
      if IsIncludable(name) {
        assert name == name[..k] + "." + extension;
        assert Extended(name, name[..k], extension);
      }
      forall stem, other | Extended(name, stem, other) ensures IsIncludable(name) {
        OneLastDot(name, stem, other);
        var known :| known in INCLUDABLE_EXTENSIONS && Folds(other, known);
        LowerFolds(other, known);
      }
    }
  }

  // Names beneath a directory

  /** The includable names beneath a directory, each with the path that leads to it from `prefix`. */
  function Bag(entries: seq<Entry>, prefix: Path): multiset<Path>
    decreases entries
  {
    if entries == [] then multiset{} else EntryBag(entries[0], prefix) + Bag(entries[1..], prefix)
  }

  function EntryBag(entry: Entry, prefix: Path): multiset<Path>
    decreases entry
  {
    match entry.node
    case Dir(inner) => Bag(inner, prefix + [entry.name])
    case _ => if IsIncludable(entry.name) then multiset{prefix + [entry.name]} else multiset{}
  }

  datatype Walk = Walk(entries: seq<Entry>, prefix: Path)

  function PendingBag(pending: seq<Walk>): multiset<Path>
  {
    if pending == [] then multiset{}
    else PendingBag(pending[..|pending| - 1]) + Bag(pending[|pending| - 1].entries, pending[|pending| - 1].prefix)
  }

  /** The number of entries the walk still has to look at. */
  function Weight(entries: seq<Entry>): nat
    decreases entries
  {
    if entries == [] then 0 else EntryWeight(entries[0]) + Weight(entries[1..])
  }

  function EntryWeight(entry: Entry): nat
    decreases entry
  {
    match entry.node
    case Dir(inner) => 2 + Weight(inner)
    case _ => 1
  }

  function PendingWeight(pending: seq<Walk>): nat
  {
    if pending == [] then 0
    else PendingWeight(pending[..|pending| - 1]) + 1 + Weight(pending[|pending| - 1].entries)
  }

  lemma PushWalk(pending: seq<Walk>, walk: Walk)
    ensures PendingBag(pending + [walk]) == PendingBag(pending) + Bag(walk.entries, walk.prefix)
    ensures PendingWeight(pending + [walk]) == PendingWeight(pending) + 1 + Weight(walk.entries)
  {
    assert (pending + [walk])[..|pending|] == pending;
  }

  lemma NextEntry(entries: seq<Entry>, k: nat, prefix: Path)
    requires k < |entries|
    ensures Bag(entries[k..], prefix) == EntryBag(entries[k], prefix) + Bag(entries[k + 1..], prefix)
    ensures Weight(entries[k..]) == EntryWeight(entries[k]) + Weight(entries[k + 1..])
  {
    assert entries[k..][1..] == entries[k + 1..];
  }

  /** Names found, names still to be found, and the names there are. */
  ghost predicate Accounted(names: seq<Path>, left: multiset<Path>, whole: multiset<Path>)
  {
    multiset(names) + left == whole
  }

  lemma Queue(
    names: seq<Path>, queued: multiset<Path>, found: multiset<Path>, rest: multiset<Path>, whole: multiset<Path>)
    requires Accounted(names, queued + (found + rest), whole)
    ensures Accounted(names, (queued + found) + rest, whole)
    ensures found == multiset{} ==> Accounted(names, queued + rest, whole)
  {
    assert queued + (found + rest) == (queued + found) + rest;
    if found == multiset{} {
      assert queued + found == queued;
    }
  }

  lemma Count(names: seq<Path>, queued: multiset<Path>, name: Path, rest: multiset<Path>, whole: multiset<Path>)
    requires Accounted(names, queued + (multiset{name} + rest), whole)
    ensures Accounted(names + [name], queued + rest, whole) && |names| + 1 <= |whole|
  {
    assert multiset(names + [name]) == multiset(names) + multiset{name};
    assert multiset(names) + (queued + (multiset{name} + rest)) == (multiset(names) + multiset{name}) + (queued + rest);
    assert |multiset(names + [name])| == |names| + 1;
  }

  /** One entry: a subdirectory is queued, an includable file counted and named, anything else skipped. */
  method ReadEntry(entry: Entry, prefix: Path, pending0: seq<Walk>, names0: seq<Path>,
                   spent0: nat, ghost rest: multiset<Path>, ghost whole: multiset<Path>)
    returns (ok: bool, pending: seq<Walk>, names: seq<Path>, spent: nat)
    requires Accounted(names0, PendingBag(pending0) + (EntryBag(entry, prefix) + rest), whole)
    requires |names0| > 0 ==> spent0 <= MAX_MANIFEST_ENTRIES
    ensures Accounted(names, PendingBag(pending) + rest, whole)
    ensures PendingWeight(pending) <= PendingWeight(pending0) + EntryWeight(entry)
    ensures spent - |names| == spent0 - |names0|
    ensures ok ==> (|names| > 0 ==> spent <= MAX_MANIFEST_ENTRIES)
    ensures !ok ==> spent > MAX_MANIFEST_ENTRIES && 0 < |names| <= |whole|
  {
    ok, pending, names, spent := true, pending0, names0, spent0;
    Queue(names, PendingBag(pending), EntryBag(entry, prefix), rest, whole);
    if entry.node.Dir? {
      PushWalk(pending, Walk(entry.node.entries, prefix + [entry.name]));
      pending := pending + [Walk(entry.node.entries, prefix + [entry.name])];
    } else if IsIncludable(entry.name) {
      Count(names, PendingBag(pending), prefix + [entry.name], rest, whole);
      spent := spent + 1;
      names := names + [prefix + [entry.name]];
      ok := spent <= MAX_MANIFEST_ENTRIES;
    }
  }

  /** Reading one directory, entry by entry. */
  method ReadDirectory(walk: Walk, pending0: seq<Walk>, names0: seq<Path>, spent0: nat,
                       ghost whole: multiset<Path>)
    returns (ok: bool, pending: seq<Walk>, names: seq<Path>, spent: nat)
    requires Accounted(names0, PendingBag(pending0) + Bag(walk.entries, walk.prefix), whole)
    requires |names0| > 0 ==> spent0 <= MAX_MANIFEST_ENTRIES
    ensures spent - |names| == spent0 - |names0|
    ensures ok ==> Accounted(names, PendingBag(pending), whole)
    ensures ok ==> PendingWeight(pending) <= PendingWeight(pending0) + Weight(walk.entries)
    ensures ok ==> (|names| > 0 ==> spent <= MAX_MANIFEST_ENTRIES)
    ensures !ok ==> spent > MAX_MANIFEST_ENTRIES && 0 < |names| <= |whole|
  {
    ok, pending, names, spent := true, pending0, names0, spent0;
    assert walk.entries[0..] == walk.entries;
    for k := 0 to |walk.entries|
      invariant Accounted(names, PendingBag(pending) + Bag(walk.entries[k..], walk.prefix), whole)
      invariant spent - |names| == spent0 - |names0| && ok
      invariant |names| > 0 ==> spent <= MAX_MANIFEST_ENTRIES
      invariant PendingWeight(pending) + Weight(walk.entries[k..]) <= PendingWeight(pending0) + Weight(walk.entries)
    {
      NextEntry(walk.entries, k, walk.prefix);
      ok, pending, names, spent := ReadEntry(walk.entries[k], walk.prefix, pending, names, spent,
                                             Bag(walk.entries[k + 1..], walk.prefix), whole);
      if !ok {
        return;
      }
    }
    assert PendingBag(pending) + multiset{} == PendingBag(pending);
  }

  /**
    The walk of `include_manifest_with`, starting at a directory's entries: the
    includable names beneath it, unless the budget shared by all the walks of
    one compilation runs out.
   */
  method IncludeNames(root: seq<Entry>, budget: nat) returns (r: Result<seq<Path>, ()>, spent: nat)
    ensures r.Ok? ==> multiset(r.value) == Bag(root, []) && spent == budget + |r.value|
    ensures r.Ok? <==> |Bag(root, [])| == 0 || budget + |Bag(root, [])| <= MAX_MANIFEST_ENTRIES
  {
    var names: seq<Path>, pending := [], [Walk(root, [])];
    spent := budget;
    assert pending[..0] == [];
    while pending != []
      invariant Accounted(names, PendingBag(pending), Bag(root, []))
      invariant spent == budget + |names|
      invariant |names| > 0 ==> spent <= MAX_MANIFEST_ENTRIES
      decreases PendingWeight(pending)
    {
      var walk := pending[|pending| - 1];
      var ok;
      ok, pending, names, spent := ReadDirectory(walk, pending[..|pending| - 1], names, spent, Bag(root, []));
      if !ok {
        return Err(()), spent;
      }
    }
    assert |multiset(names)| == |names|;
    return Ok(names), spent;
  }

  // Looking paths up

  function Find(entries: seq<Entry>, name: string): Option<Node>
  {
    if entries == [] then None
    else if entries[0].name == name then Some(entries[0].node)
    else Find(entries[1..], name)
  }

  datatype Lookup = Found(node: Node) | Missing | Obstructed

  /** What a path leads to, following every symlink on the way and at the end. */
  function Resolve(fs: FileSystem, path: Path): Lookup
    decreases |path|, 1
  {
    if path == [] then Found(Dir(fs.root)) else
    match LStat(fs, path)
    case Found(Link(id)) => if id in fs.links then Found(fs.links[id]) else Missing
    case other => other
  }

  /** What a path names, a final symlink not followed: `symlink_metadata`. */
  function LStat(fs: FileSystem, path: Path): Lookup
    decreases |path|, 0
  {
    if path == [] then Found(Dir(fs.root)) else
    match Resolve(fs, path[..|path| - 1])
    case Found(Dir(entries)) =>
      (match Find(entries, path[|path| - 1])
       case Some(node) => Found(node)
       case None => Missing)
    case Found(_) => Obstructed
    case other => other
  }

  /** The manifest of a directory: no names when it does not exist, an error when it cannot be listed. */
  function Manifest(fs: FileSystem, directory: Path): Result<multiset<Path>, ()>
  {
    match Resolve(fs, directory)
    case Found(Dir(entries)) => Ok(Bag(entries, []))
    case Missing => Ok(multiset{})
    case _ => Err(())
  }

  /** Names one after the other lead from a directory's entries to a file, or a link, that may be included. */
  ghost predicate Leads(entries: seq<Entry>, names: Path)
    decreases |names|
  {
    && names != []
    && exists k :: 0 <= k < |entries| && entries[k].name == names[0]
         && (if |names| == 1 then !entries[k].node.Dir? && IsIncludable(names[0])
             else entries[k].node.Dir? && Leads(entries[k].node.entries, names[1..]))
  }

  ghost predicate LeadsBy(entry: Entry, names: Path) { Leads([entry], names) }

  lemma LeadsByOne(entries: seq<Entry>, names: Path)
    ensures Leads(entries, names) <==> exists k :: 0 <= k < |entries| && LeadsBy(entries[k], names)
  {
    forall k | 0 <= k < |entries|
      ensures LeadsBy(entries[k], names) <==>
        && names != [] && entries[k].name == names[0]
        && (if |names| == 1 then !entries[k].node.Dir? && IsIncludable(names[0])
            else entries[k].node.Dir? && Leads(entries[k].node.entries, names[1..]))
    {
      assert [entries[k]][0] == entries[k];
    }
  }

  lemma LeadsFirst(entries: seq<Entry>, names: Path)
    requires entries != []
    ensures Leads(entries, names) <==> LeadsBy(entries[0], names) || Leads(entries[1..], names)
  {
    LeadsByOne(entries, names);
    LeadsByOne(entries[1..], names);
    assert forall k :: 0 <= k < |entries[1..]| ==> entries[1..][k] == entries[k + 1];
    assert forall k :: 0 < k < |entries| ==> entries[k] == entries[1..][k - 1];
  }

  /** A walk finds exactly the paths that lead to such a name. */
  lemma {:induction false} BagHolds(entries: seq<Entry>, prefix: Path, names: Path)
    ensures prefix + names in Bag(entries, prefix) <==> Leads(entries, names)
    decreases entries
  {
    if entries != [] {
      EntryHolds(entries[0], prefix, names);
      BagHolds(entries[1..], prefix, names);
      LeadsFirst(entries, names);
    }
  }

  lemma {:induction false} EntryHolds(entry: Entry, prefix: Path, names: Path)
    ensures prefix + names in EntryBag(entry, prefix) <==> LeadsBy(entry, names)
    decreases entry
  {
    assert [entry][0] == entry;
    match entry.node
    case Dir(inner) =>
      if names != [] && names[0] == entry.name {
        BagHolds(inner, prefix + [entry.name], names[1..]);
        assert prefix + names == prefix + [entry.name] + names[1..];
      } else if prefix + names in EntryBag(entry, prefix) {
        BagExtends(inner, prefix + [entry.name], prefix + names);
      }
    case _ =>
      if prefix + names == prefix + [entry.name] {
        assert names == (prefix + names)[|prefix|..] == [entry.name];
      }
  }

  lemma {:induction false} BagExtends(entries: seq<Entry>, prefix: Path, path: Path)
    requires path in Bag(entries, prefix)
    ensures prefix < path
    decreases entries
  {
    if path in EntryBag(entries[0], prefix) {
      EntryExtends(entries[0], prefix, path);
    } else {
      BagExtends(entries[1..], prefix, path);
    }
  }

  lemma {:induction false} EntryExtends(entry: Entry, prefix: Path, path: Path)
    requires path in EntryBag(entry, prefix)
    ensures prefix < path
    decreases entry
  {
    if entry.node.Dir? {
      BagExtends(entry.node.entries, prefix + [entry.name], path);
    }
  }

  /** There is an includable file, or link, of this relative name beneath what the directory's path leads to. */
  ghost predicate Has(fs: FileSystem, directory: Path, names: Path)
  {
    && Resolve(fs, directory).Found? && Resolve(fs, directory).node.Dir?
    && Leads(Resolve(fs, directory).node.entries, names)
  }

  /**
    The manifest notices every header that appears or goes: it has exactly the
    includable names there are, so two equal ones have the same. A directory that
    does not exist has none, and is no error.
   */
  lemma ManifestTellsNames(fs: FileSystem, later: FileSystem, directory: Path, names: Path)
    ensures Manifest(fs, directory).Err? <==>
      !Resolve(fs, directory).Missing? && !(Resolve(fs, directory).Found? && Resolve(fs, directory).node.Dir?)
    ensures Manifest(fs, directory).Ok? ==> (names in Manifest(fs, directory).value <==> Has(fs, directory, names))
    ensures Manifest(fs, directory) == Manifest(later, directory) ==>
      (Has(fs, directory, names) <==> Has(later, directory, names))
  {
    NamesHeld(fs, directory, names);
    NamesHeld(later, directory, names);
  }

  lemma NamesHeld(fs: FileSystem, directory: Path, names: Path)
    ensures Manifest(fs, directory).Ok? ==> (names in Manifest(fs, directory).value <==> Has(fs, directory, names))
    ensures Has(fs, directory, names) ==> Manifest(fs, directory).Ok?
  {
    if Resolve(fs, directory).Found? && Resolve(fs, directory).node.Dir? {
      BagHolds(Resolve(fs, directory).node.entries, [], names);
      assert [] + names == names;
    }
  }

  // Covering

  /** Every step from the ancestor down to the descendant is a directory of its own, not a link to one. */
  ghost predicate Covers(fs: FileSystem, ancestor: Path, descendant: Path)
  {
    && ancestor <= descendant
    && forall n :: |ancestor| < n <= |descendant| ==> IsRealDir(fs, descendant[..n])
  }

  predicate IsRealDir(fs: FileSystem, path: Path) { LStat(fs, path).Found? && LStat(fs, path).node.Dir? }

  /** `manifest_covers`. */
  method ManifestCovers(fs: FileSystem, ancestor: Path, descendant: Path) returns (covers: bool)
    ensures covers <==> Covers(fs, ancestor, descendant)
  {
    if !(ancestor <= descendant) {
      return false;
    }
    var current := ancestor;
    for n := |ancestor| to |descendant|
      invariant current == descendant[..n]
      invariant forall m :: |ancestor| < m <= n ==> IsRealDir(fs, descendant[..m])
    {
      current := current + [descendant[n]];
      assert current == descendant[..n + 1];
      if !IsRealDir(fs, current) {
        return false;
      }
    }
    return true;
  }

  /** Entry names are unique in every directory. */
  predicate UniqueNames(entries: seq<Entry>)
    decreases entries
  {
    && (forall i, j :: 0 <= i < j < |entries| ==> entries[i].name != entries[j].name)
    && (forall e :: e in entries && e.node.Dir? ==> UniqueNames(e.node.entries))
  }

  predicate WellFormed(fs: FileSystem)
  {
    UniqueNames(fs.root) && forall id :: id in fs.links && fs.links[id].Dir? ==> UniqueNames(fs.links[id].entries)
  }

  /** The directory `steps` below, through real directories only. */
  function Below(entries: seq<Entry>, steps: Path): Option<seq<Entry>>
    decreases steps
  {
    if steps == [] then Some(entries) else
    match Find(entries, steps[0])
    case Some(Dir(inner)) => Below(inner, steps[1..])
    case _ => None
  }

  lemma {:induction false} BelowExtend(entries: seq<Entry>, steps: Path, name: string)
    ensures Below(entries, steps + [name]) ==
            match Below(entries, steps)
            case None => None
            case Some(inner) => Below(inner, [name])
    decreases steps
  {
    if steps == [] {
      assert steps + [name] == [name];
    } else {
      assert (steps + [name])[1..] == steps[1..] + [name] && (steps + [name])[0] == steps[0];
      var found := Find(entries, steps[0]);
      if found.Some? && found.value.Dir? {
        BelowExtend(found.value.entries, steps[1..], name);
      }
    }
  }

  /** A covered directory is found by walking down from the ancestor. */
  lemma {:induction false} CoveredIsBelow(fs: FileSystem, ancestor: Path, descendant: Path)
    requires Covers(fs, ancestor, descendant) && |ancestor| < |descendant|
    ensures Resolve(fs, ancestor).Found? && Resolve(fs, ancestor).node.Dir?
    ensures var top := Resolve(fs, ancestor).node.entries;
            && Below(top, descendant[|ancestor|..]).Some?
            && Resolve(fs, descendant) == Found(Dir(Below(top, descendant[|ancestor|..]).value))
    decreases |descendant|
  {
    var up, name := descendant[..|descendant| - 1], descendant[|descendant| - 1];
    assert descendant[..|descendant|] == descendant;
    assert IsRealDir(fs, descendant);
    if |ancestor| < |up| {
      assert Covers(fs, ancestor, up) by {
        forall n | |ancestor| < n <= |up| ensures IsRealDir(fs, up[..n]) {
          assert up[..n] == descendant[..n];
        }
      }
      CoveredIsBelow(fs, ancestor, up);
      var top := Resolve(fs, ancestor).node.entries;
      BelowExtend(top, up[|ancestor|..], name);
      assert up[|ancestor|..] + [name] == descendant[|ancestor|..];
    } else {
      assert up == ancestor && descendant[|ancestor|..] == [name];
    }
    assert [name][1..] == [];
  }

  // What an ancestor's names say about a descendant's

  lemma {:induction false} FindIsEntry(entries: seq<Entry>, name: string)
    ensures Find(entries, name).Some? ==> Entry(name, Find(entries, name).value) in entries
    ensures Find(entries, name).None? ==> forall e :: e in entries ==> e.name != name
  {
    if entries != [] {
      FindIsEntry(entries[1..], name);
    }
  }

  /** Names found beneath a directory start with the prefix and go at least one step further. */
  lemma {:induction false} BagStarts(entries: seq<Entry>, prefix: Path, x: Path)
    ensures x in Bag(entries, prefix) ==> prefix < x
    decreases entries
  {
    if entries != [] {
      EntryBagStarts(entries[0], prefix, x);
      BagStarts(entries[1..], prefix, x);
    }
  }

  lemma {:induction false} EntryBagStarts(entry: Entry, prefix: Path, x: Path)
    ensures x in EntryBag(entry, prefix) ==> prefix + [entry.name] <= x
    ensures x in EntryBag(entry, prefix) && entry.node.Dir? ==> prefix + [entry.name] < x
    decreases entry
  {
    if entry.node.Dir? {
      BagStarts(entry.node.entries, prefix + [entry.name], x);
    }
  }

  /** Where a walk starts only decides what its names are prefixed with. */
  lemma {:induction false} BagShift(entries: seq<Entry>, prefix: Path, x: Path)
    ensures Bag(entries, prefix)[prefix + x] == Bag(entries, [])[x]
    decreases entries
  {
    if entries != [] {
      EntryBagShift(entries[0], prefix, x);
      BagShift(entries[1..], prefix, x);
    }
  }

  lemma {:induction false} EntryBagShift(entry: Entry, prefix: Path, x: Path)
    ensures EntryBag(entry, prefix)[prefix + x] == EntryBag(entry, [])[x]
    decreases entry
  {
    var name := entry.name;
    assert [] + [name] == [name];
    PrefixCancels(prefix, name, x);
    if entry.node.Dir? {
      EntryBagStarts(entry, prefix, prefix + x);
      EntryBagStarts(entry, [], x);
      if [name] <= x {
        var y := x[1..];
        assert prefix + x == (prefix + [name]) + y && x == [name] + y;
        BagShift(entry.node.entries, prefix + [name], y);
        BagShift(entry.node.entries, [name], y);
      }
    }
  }

  lemma PrefixCancels(prefix: Path, name: string, x: Path)
    ensures prefix + [name] <= prefix + x <==> [name] <= x
    ensures prefix + [name] == prefix + x <==> [name] == x
  {
    if [name] <= x {
      assert prefix + x == (prefix + [name]) + x[1..];
    }
    if prefix + [name] <= prefix + x {
      assert x[0] == (prefix + x)[|prefix|] == (prefix + [name])[|prefix|] == name;
    }
    if prefix + [name] == prefix + x {
      assert x == (prefix + x)[|prefix|..] == (prefix + [name])[|prefix|..] == [name];
    }
  }

  /** With unique entry names, the names through one subdirectory are exactly that subdirectory's names. */
  lemma {:induction false} NamesThrough(entries: seq<Entry>, name: string, x: Path)
    requires x != [] && forall i, j :: 0 <= i < j < |entries| ==> entries[i].name != entries[j].name
    ensures Bag(entries, [])[[name] + x] ==
            match Find(entries, name)
            case Some(Dir(inner)) => Bag(inner, [])[x]
            case _ => 0
    decreases entries
  {
    if entries != [] {
      var entry := entries[0];
      NamesThrough(entries[1..], name, x);
      NamesThroughEntry(entry, name, x);
      if entry.name == name {
        FindIsEntry(entries[1..], name);
      }
    }
  }

  lemma NamesThroughEntry(entry: Entry, name: string, x: Path)
    requires x != []
    ensures EntryBag(entry, [])[[name] + x] ==
            if entry.name == name && entry.node.Dir? then Bag(entry.node.entries, [])[x] else 0
  {
    EntryBagStarts(entry, [], [name] + x);
    assert [] + [entry.name] == [entry.name];
    if entry.name == name {
      if entry.node.Dir? {
        BagShift(entry.node.entries, [name], x);
      }
    } else {
      assert ([name] + x)[0] == name && [entry.name][0] == entry.name;
    }
  }

  lemma {:induction false} NamesBelow(entries: seq<Entry>, steps: Path, x: Path)
    requires UniqueNames(entries) && Below(entries, steps).Some? && x != []
    ensures Bag(entries, [])[steps + x] == Bag(Below(entries, steps).value, [])[x]
    decreases steps
  {
    if steps == [] {
      assert steps + x == x;
    } else {
      assert steps + x == [steps[0]] + (steps[1..] + x);
      NamesThrough(entries, steps[0], steps[1..] + x);
      FindIsEntry(entries, steps[0]);
      NamesBelow(Find(entries, steps[0]).value.entries, steps[1..], x);
    }
  }

  lemma ResolvedIsUnique(fs: FileSystem, path: Path)
    requires WellFormed(fs)
    ensures Resolve(fs, path).Found? && Resolve(fs, path).node.Dir? ==> UniqueNames(Resolve(fs, path).node.entries)
    decreases |path|
  {
    if path != [] {
      var up := Resolve(fs, path[..|path| - 1]);
      ResolvedIsUnique(fs, path[..|path| - 1]);
      if up.Found? && up.node.Dir? {
        FindIsEntry(up.node.entries, path[|path| - 1]);
      }
    }
  }

  /** Between two trees, a covered directory's names can change only if its ancestor's do. */
  lemma CoveredFollows(fs: FileSystem, later: FileSystem, ancestor: Path, descendant: Path)
    requires WellFormed(fs) && WellFormed(later)
    requires Covers(fs, ancestor, descendant) && Covers(later, ancestor, descendant)
    requires Manifest(fs, ancestor) == Manifest(later, ancestor)
    ensures Manifest(fs, descendant) == Manifest(later, descendant)
  {
    if |ancestor| < |descendant| {
      var steps := descendant[|ancestor|..];
      CoveredIsBelow(fs, ancestor, descendant);
      CoveredIsBelow(later, ancestor, descendant);
      ResolvedIsUnique(fs, ancestor);
      ResolvedIsUnique(later, ancestor);
      var top, top' := Resolve(fs, ancestor).node.entries, Resolve(later, ancestor).node.entries;
      var inner, inner' := Below(top, steps).value, Below(top', steps).value;
      forall x ensures Bag(inner, [])[x] == Bag(inner', [])[x] {
        if x == [] {
          BagStarts(inner, [], x);
          BagStarts(inner', [], x);
        } else {
          NamesBelow(top, steps, x);
          NamesBelow(top', steps, x);
        }
      }
      assert Bag(inner, []) == Bag(inner', []);
    } else {
      assert ancestor == descendant;
    }
  }

  // Reducing a set of directories

  /** A directory and, when it could be proven, the normal path it is. */
  datatype Candidate = Candidate(directory: Path, identity: Option<Path>)
  {
    function Depth(): nat { |if identity.Some? then identity.value else directory| }
  }

  ghost predicate CoveredBy(fs: FileSystem, kept: Candidate, c: Candidate)
  {
    kept.identity.Some? && c.identity.Some? && Covers(fs, kept.identity.value, c.identity.value)
  }

  lemma {:induction false} Shallowest(cs: set<Candidate>) returns (best: Candidate)
    requires cs != {}
    ensures best in cs && forall d :: d in cs ==> best.Depth() <= d.Depth()
    decreases |cs|
  {
    best :| best in cs;
    var rest := cs - {best};
    if rest != {} {
      var other := Shallowest(rest);
      if other.Depth() < best.Depth() {
        best := other;
      }
    } else {
      assert cs == {best};
    }
  }

  /** The sort: shallowest first. Ties are broken arbitrarily, which no property depends on. */
  method ShallowestFirst(cs: set<Candidate>) returns (sorted: seq<Candidate>)
    ensures forall c :: c in sorted <==> c in cs
    ensures forall i, j :: 0 <= i < j < |sorted| ==> sorted[i].Depth() <= sorted[j].Depth() && sorted[i] != sorted[j]
  {
    sorted := [];
    var remaining := cs;
    ghost var reached := 0;
    while remaining != {}
      invariant remaining <= cs
      invariant forall c :: c in cs <==> c in sorted || c in remaining
      invariant forall c :: c in sorted ==> c.Depth() <= reached && c !in remaining
      invariant forall d :: d in remaining ==> reached <= d.Depth()
      invariant forall i, j :: 0 <= i < j < |sorted| ==>
        sorted[i].Depth() <= sorted[j].Depth() && sorted[i] != sorted[j]
      decreases |remaining|
    {
      ghost var shallowest := Shallowest(remaining);
      var c :| c in remaining && forall d :: d in remaining ==> c.Depth() <= d.Depth();
      sorted := sorted + [c];
      reached := c.Depth();
      remaining := remaining - {c};
    }
  }

  method AnyCovers(fs: FileSystem, minimal: seq<Candidate>, c: Candidate) returns (covered: bool)
    ensures covered <==> exists k :: 0 <= k < |minimal| && CoveredBy(fs, minimal[k], c)
  {
    if c.identity.None? {
      return false;
    }
    for k := 0 to |minimal|
      invariant forall j :: 0 <= j < k ==> !CoveredBy(fs, minimal[j], c)
    {
      if minimal[k].identity.Some? {
        var covers := ManifestCovers(fs, minimal[k].identity.value, c.identity.value);
        if covers {
          return true;
        }
      }
    }
    return false;
  }

  /** A candidate can only cover one no deeper than itself by being the same directory. */
  lemma CoveringUpwards(fs: FileSystem, shallow: Candidate, deep: Candidate)
    requires shallow.Depth() <= deep.Depth() && CoveredBy(fs, deep, shallow)
    ensures CoveredBy(fs, shallow, deep)
  {
    assert deep.identity.value == shallow.identity.value;
  }

  ghost predicate Antichain(fs: FileSystem, minimal: seq<Candidate>)
  {
    forall i, j :: 0 <= i < |minimal| && 0 <= j < |minimal| && i != j ==> !CoveredBy(fs, minimal[i], minimal[j])
  }

  /** Every candidate is kept, or some kept one covers it. */
  ghost predicate Represents(fs: FileSystem, minimal: seq<Candidate>, c: Candidate)
  {
    c in minimal || exists k :: 0 <= k < |minimal| && CoveredBy(fs, minimal[k], c)
  }

  /** `minimal_manifest_directories`. */
  method MinimalManifestDirectories(fs: FileSystem, candidates: set<Candidate>) returns (minimal: seq<Candidate>)
    ensures forall c :: c in minimal ==> c in candidates
    ensures forall c :: c in candidates ==> Represents(fs, minimal, c)
    ensures forall c :: c in candidates && c.identity.None? ==> c in minimal
    ensures Antichain(fs, minimal)
  {
    var sorted := ShallowestFirst(candidates);
    minimal := [];
    for n := 0 to |sorted|
      invariant forall c :: c in minimal ==> c in sorted[..n]
      invariant forall c :: c in sorted[..n] ==> Represents(fs, minimal, c)
      invariant Antichain(fs, minimal)
    {
      var c := sorted[n];
      assert sorted[..n + 1] == sorted[..n] + [c];
      var covered := AnyCovers(fs, minimal, c);
      if !covered {
        forall k | 0 <= k < |minimal| ensures !CoveredBy(fs, c, minimal[k]) {
          assert minimal[k] in sorted[..n];
          if CoveredBy(fs, c, minimal[k]) {
            CoveringUpwards(fs, minimal[k], c);
          }
        }
        ghost var before := minimal;
        minimal := minimal + [c];
        forall d | d in sorted[..n + 1] ensures Represents(fs, minimal, d) {
          KeptStillRepresents(fs, before, c, d);
        }
      }
    }
    assert sorted[..|sorted|] == sorted;
  }

  lemma KeptStillRepresents(fs: FileSystem, minimal: seq<Candidate>, c: Candidate, d: Candidate)
    requires d == c || Represents(fs, minimal, d)
    ensures Represents(fs, minimal + [c], d)
  {
    if d != c && d !in minimal {
      var k :| 0 <= k < |minimal| && CoveredBy(fs, minimal[k], d);
      assert (minimal + [c])[k] == minimal[k];
    }
  }

  /** What a candidate's manifest is: the walk starts at the directory as proven to be. */
  function CandidateManifest(fs: FileSystem, c: Candidate): Result<multiset<Path>, ()>
  {
    Manifest(fs, if c.identity.Some? then c.identity.value else c.directory)
  }

  /**
    Reducing the directories loses nothing: between two trees in which the kept
    directories cover the same others, unchanged manifests for the kept ones
    mean unchanged manifests for all.
   */
  lemma ReductionLosesNothing(fs: FileSystem, later: FileSystem, candidates: set<Candidate>, minimal: seq<Candidate>)
    requires WellFormed(fs) && WellFormed(later)
    requires forall c :: c in candidates ==> Represents(fs, minimal, c)
    requires forall k, c :: k in minimal && c in candidates && CoveredBy(fs, k, c) ==> CoveredBy(later, k, c)
    requires forall k :: k in minimal ==> CandidateManifest(fs, k) == CandidateManifest(later, k)
    ensures forall c :: c in candidates ==> CandidateManifest(fs, c) == CandidateManifest(later, c)
  {
    forall c | c in candidates ensures CandidateManifest(fs, c) == CandidateManifest(later, c) {
      assert Represents(fs, minimal, c);
      if c !in minimal {
        var k :| 0 <= k < |minimal| && CoveredBy(fs, minimal[k], c);
        assert minimal[k] in minimal;
        CoveredFollows(fs, later, minimal[k].identity.value, c.identity.value);
      }
    }
  }
}
