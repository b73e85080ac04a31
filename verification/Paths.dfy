/** Paths on a Unix host: their text, their components, and lexical normalisation. */
module Paths {
  import opened Cache

  datatype Part = Root | Cur | Up | Name(text: string)

  type HostPath = seq<Part>

  /** `split('/')`. */
  function Split(s: string): (r: seq<string>)
    ensures |r| >= 1
  {
    if s == [] then [[]]
    else if s[0] == '/' then [[]] + Split(s[1..])
    else
      var rest := Split(s[1..]);
      [[s[0]] + rest[0]] + rest[1..]
  }

  /** `join("/")`. */
  function Join(names: seq<string>): string
  {
    if names == [] then ""
    else if |names| == 1 then names[0]
    else names[0] + "/" + Join(names[1..])
  }

  /** One piece between slashes; empty pieces and `.` name nothing. */
  function PieceParts(piece: string): seq<Part>
  {
    if piece == "" || piece == "." then [] else if piece == ".." then [Up] else [Name(piece)]
  }

  function PiecesParts(pieces: seq<string>): seq<Part>
  {
    if pieces == [] then [] else PieceParts(pieces[0]) + PiecesParts(pieces[1..])
  }

  /** `Path::components`: only a leading `.` of a relative path is kept. */
  function Components(s: string): HostPath
  {
    if s != [] && s[0] == '/' then [Root] + PiecesParts(Split(s[1..]))
    else if Split(s)[0] == "." then [Cur] + PiecesParts(Split(s)[1..])
    else PiecesParts(Split(s))
  }

  /** `Path::file_name`. */
  function FileName(s: string): Option<string>
  {
    var parts := Components(s);
    if parts != [] && parts[|parts| - 1].Name? then Some(parts[|parts| - 1].text) else None
  }

  function LastDot(s: string): Option<nat>
  {
    if s == [] then None
    else if s[|s| - 1] == '.' then Some(|s| - 1)
    else LastDot(s[..|s| - 1])
  }

  /** `Path::extension`: a leading dot alone does not start one. */
  function Extension(s: string): Option<string>
  {
    match FileName(s)
    case None => None
    case Some(name) =>
      match LastDot(name)
      case None => None
      case Some(k) => if 0 < k < |name| then Some(name[k + 1..]) else None
  }

  predicate IsAbsolute(p: HostPath) { p != [] && p[0] == Root }

  predicate GoodName(text: string) { text != "" && text != "." && text != ".." && '/' !in text }

  /** A path with nothing left to resolve: a root and plain names. */
  predicate Normal(p: HostPath)
  {
    IsAbsolute(p) && forall k :: 1 <= k < |p| ==> p[k].Name?
  }

  function Names(p: HostPath): seq<string>
  {
    if p == [] then [] else (if p[0].Name? then [p[0].text] else []) + Names(p[1..])
  }

  predicate Prefix(a: HostPath, b: HostPath) { a <= b }

  /** One component pushed or popped: `..` at the root stays at the root. */
  function Resolve(done: HostPath, part: Part): HostPath
  {
    match part
    case Cur => done
    case Up => if done != [] && done[|done| - 1].Name? then done[..|done| - 1] else done
    case _ => done + [part]
  }

  function Normalized(p: HostPath): HostPath
  {
    if p == [] then [] else Resolve(Normalized(p[..|p| - 1]), p[|p| - 1])
  }

  /** A path whose root, if any, comes first: what `components` yields. */
  predicate WellFormed(p: HostPath) { forall k :: 1 <= k < |p| ==> p[k] != Root }

  /** `normalize_components`. */
  method NormalizeComponents(p: HostPath) returns (normalized: HostPath)
    ensures normalized == Normalized(p)
  {
    normalized := [];
    for k := 0 to |p|
      invariant normalized == Normalized(p[..k])
    {
      assert p[..k + 1][..k] == p[..k];
      match p[k]
      case Cur =>
      case Up =>
        if normalized != [] && normalized[|normalized| - 1].Name? {
          normalized := normalized[..|normalized| - 1];
        }
      case part => normalized := normalized + [part];
    }
    assert p[..|p|] == p;
  }

  /** Normalising an absolute path leaves a root and names, all of them names the path had. */
  lemma {:induction false} NormalizedIsNormal(p: HostPath)
    requires IsAbsolute(p) && WellFormed(p)
    ensures Normal(Normalized(p))
    ensures forall part :: part in Normalized(p) ==> part in p
  {
    if |p| == 1 {
      assert p[..0] == [];
      assert Normalized(p) == [] + [Root];
    } else {
      var front := p[..|p| - 1];
      assert p == front + [p[|p| - 1]];
      NormalizedIsNormal(front);
    }
  }

  /** A normal path is its own normalisation. */
  lemma {:induction false} NormalIsFixed(p: HostPath)
    requires forall k :: 0 <= k < |p| ==> p[k].Name? || p[k].Root?
    ensures Normalized(p) == p
  {
    if p != [] {
      NormalIsFixed(p[..|p| - 1]);
      assert p == p[..|p| - 1] + [p[|p| - 1]];
    }
  }

  // Text and components

  lemma {:induction false} SplitOne(name: string)
    requires '/' !in name
    ensures Split(name) == [name]
  {
    if name != [] {
      SplitOne(name[1..]);
      assert [name[0]] + name[1..] == name;
    }
  }

  lemma {:induction false} SplitFirst(name: string, rest: string)
    requires '/' !in name
    ensures Split(name + "/" + rest) == [name] + Split(rest)
  {
    var s := name + "/" + rest;
    if name == [] {
      assert s[1..] == rest;
    } else {
      assert s[1..] == name[1..] + "/" + rest;
      SplitFirst(name[1..], rest);
      assert [name[0]] + name[1..] == name;
    }
  }

  predicate GoodNames(names: seq<string>) { forall k :: 0 <= k < |names| ==> GoodName(names[k]) }

  /** Splitting a joined list of names gives the names. */
  lemma {:induction false} SplitJoin(names: seq<string>)
    requires names != [] && GoodNames(names)
    ensures Split(Join(names)) == names && Join(names) != ""
  {
    if |names| == 1 {
      SplitOne(names[0]);
    } else {
      SplitJoin(names[1..]);
      SplitFirst(names[0], Join(names[1..]));
      assert [names[0]] + names[1..] == names;
    }
  }

  function NameParts(names: seq<string>): HostPath
  {
    seq(|names|, k requires 0 <= k < |names| => Name(names[k]))
  }

  lemma {:induction false} PiecesOfNames(names: seq<string>)
    requires GoodNames(names)
    ensures PiecesParts(names) == NameParts(names)
  {
    if names != [] {
      PiecesOfNames(names[1..]);
      assert NameParts(names) == [Name(names[0])] + NameParts(names[1..]);
    }
  }

  /** The text of a normal path. */
  function Show(p: HostPath): string { "/" + Join(Names(p)) }

  /** The names of a normal path are all of it but the root. */
  lemma {:induction false} NormalSplit(p: HostPath)
    requires forall k :: 0 <= k < |p| ==> p[k].Name?
    ensures NameParts(Names(p)) == p
  {
    if p != [] {
      NormalSplit(p[1..]);
      assert Names(p) == [p[0].text] + Names(p[1..]);
      assert NameParts(Names(p)) == [p[0]] + NameParts(Names(p[1..]));
    }
  }

  lemma EmptyPieces()
    ensures PiecesParts(Split("")) == []
  {
    assert [""][1..] == [];
    assert PiecesParts([""]) == PieceParts("") + PiecesParts([""][1..]);
  }

  /** What `components` can yield: the root only in front, and names without slashes. */
  predicate Valid(p: HostPath)
  {
    WellFormed(p) && forall k :: 0 <= k < |p| && p[k].Name? ==> GoodName(p[k].text)
  }

  predicate GoodPart(part: Part) { part != Root && (part.Name? ==> GoodName(part.text)) }

  lemma {:induction false} PiecesAreGood(pieces: seq<string>)
    requires forall k :: 0 <= k < |pieces| ==> '/' !in pieces[k]
    ensures forall k :: 0 <= k < |PiecesParts(pieces)| ==> GoodPart(PiecesParts(pieces)[k])
  {
    if pieces != [] {
      PiecesAreGood(pieces[1..]);
    }
  }

  lemma {:induction false} SplitHasNoSlash(s: string)
    ensures forall k :: 0 <= k < |Split(s)| ==> '/' !in Split(s)[k]
  {
    if s != [] {
      SplitHasNoSlash(s[1..]);
    }
  }

  lemma ComponentsAreValid(s: string)
    ensures Valid(Components(s))
  {
    SplitHasNoSlash(s);
    if s != [] && s[0] == '/' {
      SplitHasNoSlash(s[1..]);
      LeadIsValid([Root], Split(s[1..]));
    } else if Split(s)[0] == "." {
      LeadIsValid([Cur], Split(s)[1..]);
    } else {
      LeadIsValid([], Split(s));
      assert [] + PiecesParts(Split(s)) == PiecesParts(Split(s));
    }
  }

  lemma LeadIsValid(lead: HostPath, pieces: seq<string>)
    requires |lead| <= 1 && (lead != [] ==> !lead[0].Name?)
    requires forall k :: 0 <= k < |pieces| ==> '/' !in pieces[k]
    ensures Valid(lead + PiecesParts(pieces))
  {
    PiecesAreGood(pieces);
    var p := lead + PiecesParts(pieces);
    forall k | |lead| <= k < |p| ensures GoodPart(p[k]) {
      assert p[k] == PiecesParts(pieces)[k - |lead|];
    }
  }

  /** Reading back the text of a normal path gives the path. */
  lemma ComponentsOfShow(p: HostPath)
    requires Normal(p) && GoodNames(Names(p))
    ensures Components(Show(p)) == p
  {
    var names := Names(p);
    assert p == [Root] + p[1..];
    NormalSplit(p[1..]);
    assert Names(p) == [] + Names(p[1..]);
    assert Show(p)[1..] == Join(names);
    if names == [] {
      EmptyPieces();
    } else {
      SplitJoin(names);
      PiecesOfNames(names);
    }
  }
}
