/**
  Which command lines the parser admits, told from their text: every flag is
  known and none asks for something the key cannot describe, values are there,
  there is one source whose language is known when it is met, and the caller's
  dependency-list flags make sense together. And what those flags ask for.
 */
module CcAdmission {
  import opened Cache
  import opened CcParser
  import opened CcStripping
  import opened CcKeys
  import Paths

  // Single flags

  /** How the adapter's allowlists are made up: which letters their flags begin with. */
  ghost predicate Orderly(t: Tables)
  {
    && Regular(t)
    && (forall v :: v in t.query ==> Second(v) != 'M')
    && (forall v :: Listed(t, v) ==> Second(v) in {'P', 'a', 'n', 'p', 'w', 'O', 'g'})
    && (forall v :: v in t.passthrough ==> Second(v) == 'X')
    && (forall k :: 0 <= k < |t.prefixMap| ==> Third(t.prefixMap[k]) != 'p' && Third(t.prefixMap[k]) != 't')
  }

  /** The flag asks for a query, another output, other tools, or something of this machine. */
  ghost predicate Refused(t: Tables, v: string)
  {
    || v in t.query || Starts(v, "-print") || v == "-S" || Starts(v, "-save-temps") || v == "--coverage"
    || PassesThrough(t, v) || Starts(v, "-include-pch") || v == "-emit-pch" || RefusedOption(v)
  }

  /** The flag is for another tool, or is an assembler option outside the list. */
  ghost predicate PassesThrough(t: Tables, v: string)
  {
    || v in t.passthrough || Starts(v, "-Wp,") || Starts(v, "-Wl,")
    || (Starts(v, "-Wa,") && !ListedOptions(t, Rest(v, "-Wa,")))
  }

  function WithCommas(pieces: seq<string>): string
    requires pieces != []
  {
    if |pieces| == 1 then pieces[0] else pieces[0] + "," + WithCommas(pieces[1..])
  }

  ghost predicate NoCommas(pieces: seq<string>) { forall k :: 0 <= k < |pieces| ==> ',' !in pieces[k] }

  /** The text is listed options with commas between them, at least one. */
  ghost predicate ListedOptions(t: Tables, options: string)
  {
    options != "" && exists pieces :: OptionsOf(t, options, pieces)
  }

  ghost predicate OptionsOf(t: Tables, options: string, pieces: seq<string>)
  {
    && pieces != [] && NoCommas(pieces) && WithCommas(pieces) == options
    && forall k :: 0 <= k < |pieces| ==> pieces[k] in t.assembler
  }

  lemma {:induction false} PiecesJoin(s: string)
    ensures NoCommas(SplitOn(s, ',')) && WithCommas(SplitOn(s, ',')) == s
  {
    if s != [] {
      var rest := SplitOn(s[1..], ',');
      PiecesJoin(s[1..]);
      if s[0] == ',' {
        assert ([[]] + rest)[1..] == rest;
        assert s == [] + "," + s[1..];
      } else {
        var pieces := [[s[0]] + rest[0]] + rest[1..];
        assert pieces[1..] == rest[1..];
        if |rest| > 1 {
          assert s == [s[0]] + (rest[0] + "," + WithCommas(rest[1..]));
          assert s == [s[0]] + rest[0] + "," + WithCommas(rest[1..]);
        }
      }
    }
  }

  lemma {:induction false} FirstPiece(piece: string, rest: string)
    requires ',' !in piece
    ensures SplitOn(piece, ',') == [piece]
    ensures SplitOn(piece + "," + rest, ',') == [piece] + SplitOn(rest, ',')
  {
    var s := piece + "," + rest;
    if piece == [] {
      assert s[1..] == rest;
    } else {
      FirstPiece(piece[1..], rest);
      assert s[1..] == piece[1..] + "," + rest;
      assert [piece[0]] + piece[1..] == piece;
    }
  }

  lemma {:induction false} JoinedSplit(pieces: seq<string>)
    requires pieces != [] && NoCommas(pieces)
    ensures SplitOn(WithCommas(pieces), ',') == pieces
  {
    if |pieces| == 1 {
      FirstPiece(pieces[0], "");
    } else {
      FirstPiece(pieces[0], WithCommas(pieces[1..]));
      JoinedSplit(pieces[1..]);
      assert [pieces[0]] + pieces[1..] == pieces;
    }
  }

  lemma OptionsAreListed(t: Tables, options: string)
    ensures SupportedAssembler(t, options) <==> ListedOptions(t, options)
  {
    PiecesJoin(options);
    if SupportedAssembler(t, options) {
      assert OptionsOf(t, options, SplitOn(options, ','));
    }
    if ListedOptions(t, options) {
      var pieces :| OptionsOf(t, options, pieces);
      JoinedSplit(pieces);
    }
  }

  predicate RefusedOption(v: string)
  {
    || Starts(v, "-fplugin") || Starts(v, "-fpass-plugin") || Starts(v, "-fprofile-") || v == "-ftest-coverage"
    || v == "-mllvm" || (Starts(v, "-m") && IsThisMachine(Rest(v, "-m")))
  }

  /** `arch=native` and the like. */
  predicate IsThisMachine(option: string)
  {
    && (SplitOnce(option).0 == "arch" || SplitOnce(option).0 == "cpu" || SplitOnce(option).0 == "tune")
    && (SplitOnce(option).1 == "native" || SplitOnce(option).1 == "host")
  }

  predicate Known(t: Tables, v: string)
  {
    || Listed(t, v) || v == "-c" || v == "-E" || Starts(v, "-std=") || Starts(v, "-W") || KnownPath(t, v)
    || Starts(v, "-D") || Starts(v, "-U") || Starts(v, "-x")
    || v == "--param" || Starts(v, "--param=") || Starts(v, "--target=") || v == "-target" || v == "-arch"
    || (Starts(v, "-f") && SplitOnce(Rest(v, "-f")).0 in t.f)
    || (Starts(v, "-m") && SplitOnce(Rest(v, "-m")).0 in t.m)
  }

  predicate KnownPath(t: Tables, v: string)
  {
    || Starts(v, "-o") || Starts(v, "-I") || v in t.separatePath || Starts(v, "--include=")
    || Starts(v, "--sysroot=") || PrefixMapFlag(t.prefixMap, v).Some?
  }

  lemma RefusedHeads(v: string)
    ensures Starts(v, "-print") ==> Second(v) == 'p'
    ensures v == "-S" ==> Second(v) == 'S'
    ensures Starts(v, "-save-temps") ==> Second(v) == 's' && Third(v) == 'a'
    ensures v == "--coverage" ==> Second(v) == '-' && Third(v) == 'c'
    ensures Starts(v, "-Wp,") || Starts(v, "-Wl,") || Starts(v, "-Wa,") ==> Starts(v, "-W")
    ensures Starts(v, "-include-pch") ==> Second(v) == 'i'
    ensures v == "-emit-pch" ==> Second(v) == 'e'
    ensures Starts(v, "-std=") ==> Third(v) == 't'
    ensures Starts(v, "-g") ==> Second(v) == 'g'
    ensures (Starts(v, "-Wp,") ==> Third(v) == 'p') && (Starts(v, "-Wl,") ==> Third(v) == 'l')
    ensures Starts(v, "-Wa,") ==> Third(v) == 'a'
  {
    Head(v, "-Wp,");
    Head(v, "-Wl,");
    Head(v, "-Wa,");
    Head(v, "-print");
    Head(v, "-save-temps");
    Head(v, "-include-pch");
    Head(v, "-std=");
    Head(v, "-g");
    assert Starts(v, "-Wp,") ==> v[..2] == "-Wp,"[..2];
    assert Starts(v, "-Wl,") ==> v[..2] == "-Wl,"[..2];
    assert Starts(v, "-Wa,") ==> v[..2] == "-Wa,"[..2];
  }

  lemma Within(v: string, head: string, option: string)
    requires Starts(v, head)
    ensures Starts(v, head + option) <==> Starts(Rest(v, head), option)
    ensures v == head + option <==> Rest(v, head) == option
  {
    if Starts(v, head + option) {
      assert Rest(v, head)[..|option|] == v[|head|..|head| + |option|] == option;
    }
    if Starts(Rest(v, head), option) {
      assert v[..|head| + |option|] == head + Rest(v, head)[..|option|];
    }
    Attached(v, head);
  }

  lemma OptionsF(v: string)
    requires Starts(v, "-f")
    ensures Starts(v, "-fplugin") <==> Starts(Rest(v, "-f"), "plugin")
    ensures Starts(v, "-fpass-plugin") <==> Starts(Rest(v, "-f"), "pass-plugin")
    ensures Starts(v, "-fprofile-") <==> Starts(Rest(v, "-f"), "profile-")
    ensures v == "-ftest-coverage" <==> Rest(v, "-f") == "test-coverage"
  {
    Within(v, "-f", "plugin");
    Within(v, "-f", "pass-plugin");
    Within(v, "-f", "profile-");
    Within(v, "-f", "test-coverage");
    assert "-f" + "plugin" == "-fplugin" && "-f" + "pass-plugin" == "-fpass-plugin";
    assert "-f" + "profile-" == "-fprofile-" && "-f" + "test-coverage" == "-ftest-coverage";
  }

  lemma OptionF(t: Tables, v: string)
    requires Starts(v, "-f")
    ensures ClassifyF(t, v, Rest(v, "-f")).Reject? <==> RefusedOption(v) || SplitOnce(Rest(v, "-f")).0 !in t.f
  {
    ShortHeads(v);
    OptionsF(v);
  }

  lemma OptionM(t: Tables, v: string)
    requires Starts(v, "-m")
    ensures ClassifyM(t, v, Rest(v, "-m")).Reject? <==> RefusedOption(v) || SplitOnce(Rest(v, "-m")).0 !in t.m
  {
    FHeads(v);
    ShortHeads(v);
    Within(v, "-m", "llvm");
    assert "-m" + "llvm" == "-mllvm";
  }

  lemma FHeads(v: string)
    ensures Starts(v, "-fplugin") ==> Second(v) == 'f' && Third(v) == 'p'
    ensures Starts(v, "-fpass-plugin") ==> Second(v) == 'f' && Third(v) == 'p'
    ensures Starts(v, "-fprofile-") ==> Second(v) == 'f' && Third(v) == 'p'
    ensures v == "-ftest-coverage" ==> Second(v) == 'f' && Third(v) == 't'
    ensures v == "-mllvm" ==> Second(v) == 'm'
  {
    Head(v, "-fplugin");
    Head(v, "-fpass-plugin");
    Head(v, "-fprofile-");
  }

  lemma {:induction false} PrefixMapsThird(flags: seq<string>, v: string)
    requires forall k :: 0 <= k < |flags| ==> Starts(flags[k], "-f")
    requires forall k :: 0 <= k < |flags| ==> Third(flags[k]) != 'p' && Third(flags[k]) != 't'
    ensures PrefixMapFlag(flags, v).Some? ==> Third(v) != 'p' && Third(v) != 't'
  {
    if flags != [] && !Starts(v, flags[0] + "=") {
      PrefixMapsThird(flags[1..], v);
    } else if flags != [] {
      assert Starts(flags[0], "-f");
      assert |flags[0]| >= 3 ==> v[2] == flags[0][2];
    }
  }

  /** The heads of everything that decides, in one place. */
  lemma AllHeads(t: Tables, v: string)
    requires Orderly(t)
    ensures v in t.separatePath ==> Second(v) == 'i'
    ensures PrefixMapFlag(t.prefixMap, v).Some? ==> Second(v) == 'f' && Third(v) != 'p' && Third(v) != 't'
    ensures RefusedOption(v) ==> Second(v) == 'f' || Second(v) == 'm'
    ensures RefusedOption(v) && Second(v) == 'f' ==> Third(v) == 'p' || Third(v) == 't'
  {
    Heads(t, v);
    PrefixMapsThird(t.prefixMap, v);
    FHeads(v);
    ShortHeads(v);
  }

  lemma RestAdmits(t: Tables, v: string)
    requires Orderly(t) && Starts(v, "-") && !Listed(t, v) && v != "-c" && v != "-E" && !Starts(v, "-std=")
    requires !Starts(v, "-o") && !Starts(v, "-I") && v !in t.separatePath && !Starts(v, "--include=")
    ensures ClassifyRest(t, v).Reject? <==> RefusedOption(v) || !Known(t, v)
  {
    ShortHeads(v);
    LongHeads(v);
    AllHeads(t, v);
    if Starts(v, "-f") {
      OptionF(t, v);
    } else if Starts(v, "-m") {
      OptionM(t, v);
    }
  }

  /** The flags refused before any is admitted. */
  ghost predicate RefusedFirst(t: Tables, v: string)
  {
    || v in t.query || Starts(v, "-print") || v == "-S" || Starts(v, "-save-temps") || v == "--coverage"
    || PassesThrough(t, v) || Starts(v, "-include-pch") || v == "-emit-pch"
  }

  lemma RefusedFirstIs(t: Tables, v: string)
    requires Orderly(t) && Starts(v, "-") && !Starts(v, "-M")
    ensures RefusedFirst(t, v) ==> Classify(t, v).Reject?
    ensures !RefusedFirst(t, v) && Starts(v, "-Wa,") ==> Classify(t, v) == Keep(v)
  {
    ShortHeads(v);
    RefusedHeads(v);
    if Starts(v, "-Wa,") {
      OptionsAreListed(t, Rest(v, "-Wa,"));
    }
  }

  lemma NotRefusedFirst(t: Tables, v: string)
    requires Orderly(t) && Starts(v, "-") && !Starts(v, "-M") && !RefusedFirst(t, v) && !Starts(v, "-Wa,")
    ensures Classify(t, v).Reject? <==> RefusedOption(v) || !Known(t, v)
    ensures !Classify(t, v).Dependency?
  {
    ShortHeads(v);
    LongHeads(v);
    AllHeads(t, v);
    if !Listed(t, v) && v != "-c" && v != "-E" && !Starts(v, "-std=")
       && !Starts(v, "-o") && !Starts(v, "-I") && v !in t.separatePath && !Starts(v, "--include=") {
      RestAdmits(t, v);
      assert Classify(t, v) == ClassifyRest(t, v);
    }
  }

  /** A flag is refused exactly when it asks for something it must not, or is not known. */
  lemma FlagAdmits(t: Tables, v: string)
    requires Orderly(t) && Starts(v, "-") && !Starts(v, "-M")
    ensures Classify(t, v).Reject? <==> Refused(t, v) || !Known(t, v)
    ensures !Classify(t, v).Dependency?
  {
    RefusedFirstIs(t, v);
    if !RefusedFirst(t, v) && !Starts(v, "-Wa,") {
      NotRefusedFirst(t, v);
    } else {
      ShortHeads(v);
      RefusedHeads(v);
      AllHeads(t, v);
    }
  }

  // Whole lines

  /** A flag about the caller's dependency list that the parser knows. */
  predicate KnownRequest(v: string)
  {
    || v == "-MD" || v == "-MMD" || v == "-MP"
    || Starts(v, "-MF") || Starts(v, "-MT") || Starts(v, "-MQ")
  }

  /** What a single argument must be, wherever it stands. */
  ghost predicate TokenOk(t: Tables, v: string)
  {
    && v != "-" && !Starts(v, "@")
    && (Starts(v, "-M") ==> KnownRequest(v))
    && (Starts(v, "-") && !Starts(v, "-M") ==> Known(t, v) && !Refused(t, v))
  }

  /** Every argument is text and in order, and every value that is asked for is there. */
  ghost predicate Readable(t: Tables, args: seq<Arg>, i: nat)
    decreases |args| - i
  {
    i >= |args|
    || (&& args[i].Text? && TokenOk(t, args[i].text)
        && (TakesNext(t, args[i].text) ==> i + 1 < |args| && args[i + 1].Text?)
        && Readable(t, args, GroupAt(t, args, i).1))
  }

  /** The inputs met so far: a source, and a `-x` before it. */
  datatype Met = Met(source: bool, language: bool)

  /** At most one source, its language known when it is met, and every `-x` names a language. */
  ghost predicate InputsOk(t: Tables, groups: seq<Group>, met: Met)
  {
    groups == []
    || (var v := groups[0].flag;
        && (!Starts(v, "-") ==> !met.source && (met.language || LanguageByName(v).Some?))
        && (Bears(t, v, "-x") ==> LanguageNamed(ValueOf(groups[0], "-x")).Some?)
        && InputsOk(t, groups[1..], After(t, v, met)))
  }

  function After(t: Tables, v: string, met: Met): Met
  {
    Met(met.source || !Starts(v, "-"), met.language || Bears(t, v, "-x"))
  }

  function MetBy(core: Core): Met { Met(core.source.Some?, core.explicitLanguage.Some?) }

  /** The language of a source that was met is known. */
  ghost predicate Lingual(core: Core)
  {
    core.source.Some? ==> core.explicitLanguage.Some? || LanguageByName(core.source.value).Some?
  }

  function GroupOf(t: Tables, v: string, next: Option<Arg>): Group
  {
    Group(v, if TakesNext(t, v) && next.Some? && next.value.Text? then Some(next.value.text) else None)
  }

  /** What it takes for a token that is no dependency flag to be read. */
  ghost predicate Acceptable(t: Tables, met: Met, v: string, next: Option<Arg>)
  {
    && TokenOk(t, v) && Valued(t, v, next)
    && (!Starts(v, "-") ==> !met.source && (met.language || LanguageByName(v).Some?))
  }

  lemma ApplySucceeds(kind: Kind, core: Core, w: string)
    ensures Apply(kind, core, w).Ok? <==>
      !kind.Reject? && !kind.Dependency? && (kind.ForceLanguage? ==> LanguageNamed(w).Some?)
    ensures Apply(kind, core, w).Ok? ==>
      && Apply(kind, core, w).value.source == core.source
      && (Apply(kind, core, w).value.explicitLanguage.Some? <==> core.explicitLanguage.Some? || kind.ForceLanguage?)
  {
  }

  lemma LanguageFlags(t: Tables, v: string, kind: Kind)
    requires Orderly(t) && Admitted(t, v, kind)
    ensures kind.ForceLanguage? <==> Bears(t, v, "-x")
    ensures kind.ForceLanguage? ==> kind.inline == Rest(v, "-x") && (kind.inline == "" <==> v == "-x")
  {
    ShortHeads(v);
    LongHeads(v);
    Heads(t, v);
    Length(v, kind);
  }

  /** The value is there, and a language that is named is one. */
  ghost predicate Valued(t: Tables, v: string, next: Option<Arg>)
  {
    && (TakesNext(t, v) ==> next.Some? && next.value.Text?)
    && (Bears(t, v, "-x") ==> LanguageNamed(ValueOf(GroupOf(t, v, next), "-x")).Some?)
  }

  lemma KindIsRead(t: Tables, kind: Kind, core: Core, v: string, next: Option<Arg>)
    requires !kind.Reject? && !kind.Dependency? && (TakesNext(t, v) <==> Inline(kind) == Some(""))
    requires kind.ForceLanguage? <==> Bears(t, v, "-x")
    requires kind.ForceLanguage? ==> kind.inline == Rest(v, "-x")
    ensures FlagStep(kind, core, next).Ok? <==> Valued(t, v, next)
    ensures FlagStep(kind, core, next).Ok? ==>
      var (after, used) := FlagStep(kind, core, next).value;
      && used == (if TakesNext(t, v) then 1 else 0) && after.source == core.source
      && (after.explicitLanguage.Some? <==> core.explicitLanguage.Some? || Bears(t, v, "-x"))
  {
    match Inline(kind)
    case None => ApplySucceeds(kind, core, "");
    case Some(inline) =>
      if TakeValue(inline, next).Ok? {
        ApplySucceeds(kind, core, TakeValue(inline, next).value.0);
      }
  }

  lemma FlagIsRead(t: Tables, core: Core, v: string, next: Option<Arg>)
    requires Orderly(t) && Starts(v, "-") && !Starts(v, "-M")
    ensures FlagStep(Classify(t, v), core, next).Ok? <==> Known(t, v) && !Refused(t, v) && Valued(t, v, next)
    ensures FlagStep(Classify(t, v), core, next).Ok? ==>
      var (after, used) := FlagStep(Classify(t, v), core, next).value;
      && used == (if TakesNext(t, v) then 1 else 0) && after.source == core.source
      && (after.explicitLanguage.Some? <==> core.explicitLanguage.Some? || Bears(t, v, "-x"))
  {
    FlagAdmits(t, v);
    FlagReads(t, v);
    KindOrNot(t, Classify(t, v), core, v, next);
  }

  lemma KindOrNot(t: Tables, kind: Kind, core: Core, v: string, next: Option<Arg>)
    requires Orderly(t) && Starts(v, "-") && !Starts(v, "-M") && Reads(t, v, kind) && !kind.Dependency?
    ensures FlagStep(kind, core, next).Ok? <==> !kind.Reject? && Valued(t, v, next)
    ensures FlagStep(kind, core, next).Ok? ==>
      var (after, used) := FlagStep(kind, core, next).value;
      && used == (if TakesNext(t, v) then 1 else 0) && after.source == core.source
      && (after.explicitLanguage.Some? <==> core.explicitLanguage.Some? || Bears(t, v, "-x"))
  {
    if !kind.Reject? {
      FlagsTakeNext(t, v, kind);
      LanguageFlags(t, v, kind);
      KindIsRead(t, kind, core, v, next);
    }
  }

  lemma SourceIsRead(t: Tables, core: Core, v: string, next: Option<Arg>)
    requires Orderly(t) && !Starts(v, "-")
    ensures TokenOk(t, v) <==> !Starts(v, "@")
    ensures Valued(t, v, next) && !TakesNext(t, v)
    ensures InputStep(RulesOf(t), core, v).Ok? <==>
      core.source.None? && (core.explicitLanguage.Some? || LanguageByName(v).Some?)
    ensures InputStep(RulesOf(t), core, v).Ok? ==>
      MetBy(InputStep(RulesOf(t), core, v).value) == After(t, v, MetBy(core))
  {
    SourceIsNoFlag(t, v);
    ShortHeads(v);
    assert Second(v) == ' ';
  }

  lemma TokenIsRead(t: Tables, core: Core, v: string, next: Option<Arg>)
    requires Orderly(t) && !Starts(v, "-M")
    ensures CoreStep(RulesOf(t), core, v, next).Ok? <==> Acceptable(t, MetBy(core), v, next)
    ensures CoreStep(RulesOf(t), core, v, next).Ok? ==>
      && MetBy(CoreStep(RulesOf(t), core, v, next).value.0) == After(t, v, MetBy(core))
      && CoreStep(RulesOf(t), core, v, next).value.1 == (if TakesNext(t, v) then 1 else 0)
      && (Lingual(core) ==> Lingual(CoreStep(RulesOf(t), core, v, next).value.0))
  {
    if !Starts(v, "-") {
      SourceIsRead(t, core, v, next);
    } else if v != "-" {
      assert v[0] == '-' && '-' != "@"[0];
      FlagIsRead(t, core, v, next);
    }
  }

  // The caller's dependency list

  /** What the dependency flags ask for, each list in the order of the line. */
  datatype Asked = Asked(listings: seq<string>, files: seq<string>, targets: seq<Target>, phony: bool)

  const NOTHING_ASKED := Asked([], [], [], false)

  function Also(a: Asked, b: Asked): Asked
  {
    Asked(a.listings + b.listings, a.files + b.files, a.targets + b.targets, a.phony || b.phony)
  }

  function AskedIn(g: Group): Asked
  {
    var v := g.flag;
    Asked(
      if v == "-MD" || v == "-MMD" then [v] else [],
      if Starts(v, "-MF") then [ValueOf(g, "-MF")] else [],
      if Starts(v, "-MT") then [Target(ValueOf(g, "-MT"), false)]
      else if Starts(v, "-MQ") then [Target(ValueOf(g, "-MQ"), true)] else [],
      v == "-MP")
  }

  /** What the line asks for from a position on. */
  function AskedFrom(t: Tables, args: seq<Arg>, i: nat): Asked
    decreases |args| - i
  {
    if i >= |args| || args[i].Raw? then NOTHING_ASKED else
    var (group, next) := GroupAt(t, args, i);
    Also(if Starts(args[i].text, "-M") then AskedIn(group) else NOTHING_ASKED, AskedFrom(t, args, next))
  }

  ghost predicate Matches(asked: Asked, request: Request)
  {
    && request.userHeadersOnly == (match LastOf(asked.listings)
                                   case None => None
                                   case Some(flag) => Some(flag == "-MMD"))
    && request.file == LastOf(asked.files) && request.targets == asked.targets && request.phonyTargets == asked.phony
    && (request.modifier.Some? <==> asked.phony || asked.files != [] || asked.targets != [])
  }

  /** The flags that begin with `-M`, by what follows it. */
  lemma Options(v: string)
    requires Starts(v, "-M")
    ensures v == "-MD" <==> Rest(v, "-M") == "D"
    ensures v == "-MMD" <==> Rest(v, "-M") == "MD"
    ensures v == "-MP" <==> Rest(v, "-M") == "P"
    ensures Starts(v, "-MF") <==> Starts(Rest(v, "-M"), "F")
    ensures Starts(v, "-MT") <==> Starts(Rest(v, "-M"), "T")
    ensures Starts(v, "-MQ") <==> Starts(Rest(v, "-M"), "Q")
  {
    Within(v, "-M", "D");
    Within(v, "-M", "MD");
    Within(v, "-M", "P");
    Within(v, "-M", "F");
    Within(v, "-M", "T");
    Within(v, "-M", "Q");
    assert "-M" + "D" == "-MD" && "-M" + "MD" == "-MMD" && "-M" + "P" == "-MP";
    assert "-M" + "F" == "-MF" && "-M" + "T" == "-MT" && "-M" + "Q" == "-MQ";
  }

  lemma OptionsTakeNext(t: Tables, v: string)
    requires Orderly(t) && Starts(v, "-M")
    ensures TakesNext(t, v) <==> v == "-MF" || v == "-MT" || v == "-MQ"
    ensures v == "-MF" <==> Starts(v, "-MF") && Rest(v, "-M")[1..] == ""
    ensures v == "-MT" <==> Starts(v, "-MT") && Rest(v, "-M")[1..] == ""
    ensures v == "-MQ" <==> Starts(v, "-MQ") && Rest(v, "-M")[1..] == ""
  {
    ShortHeads(v);
    LongHeads(v);
    Heads(t, v);
  }

  lemma RequestIsRead(t: Tables, request: Request, v: string, next: Option<Arg>, at: nat)
    requires Orderly(t) && Starts(v, "-M")
    ensures RequestStep(request, v, Rest(v, "-M"), next, at).Ok? <==>
      KnownRequest(v) && (TakesNext(t, v) ==> next.Some? && next.value.Text?)
  {
    Options(v);
    OptionsTakeNext(t, v);
  }

  /** The value taken is the one the text gives. */
  lemma RequestValue(t: Tables, v: string, next: Option<Arg>, flag: string)
    requires Orderly(t) && Starts(v, "-M") && (flag == "-MF" || flag == "-MT" || flag == "-MQ") && Starts(v, flag)
    requires TakeValue(Rest(v, "-M")[1..], next).Ok?
    ensures TakeValue(Rest(v, "-M")[1..], next).value.0 == ValueOf(GroupOf(t, v, next), flag)
  {
    OptionsTakeNext(t, v);
    assert Rest(v, "-M")[1..] == Rest(v, flag);
    Attached(v, flag);
  }

  lemma RequestMatches(t: Tables, request: Request, v: string, next: Option<Arg>, at: nat, asked: Asked)
    requires Orderly(t) && Starts(v, "-M") && Matches(asked, request)
    requires RequestStep(request, v, Rest(v, "-M"), next, at).Ok?
    ensures Matches(Also(asked, AskedIn(GroupOf(t, v, next))),
                    RequestStep(request, v, Rest(v, "-M"), next, at).value.0)
  {
    Options(v);
    ThirdTells(v);
    assert asked.listings + [] == asked.listings && asked.files + [] == asked.files;
    assert asked.targets + [] == asked.targets;
    if Starts(v, "-MF") {
      RequestValue(t, v, next, "-MF");
    } else if Starts(v, "-MT") {
      RequestValue(t, v, next, "-MT");
    } else if Starts(v, "-MQ") {
      RequestValue(t, v, next, "-MQ");
    }
  }

  lemma ThirdTells(v: string)
    ensures Starts(v, "-MF") ==> Third(v) == 'F'
    ensures Starts(v, "-MT") ==> Third(v) == 'T'
    ensures Starts(v, "-MQ") ==> Third(v) == 'Q'
    ensures (v == "-MD" ==> Third(v) == 'D') && (v == "-MMD" ==> Third(v) == 'M') && (v == "-MP" ==> Third(v) == 'P')
  {
    Head(v, "-MF");
    Head(v, "-MT");
    Head(v, "-MQ");
  }

  // What a reader must do, whatever it is made of

  ghost predicate Admits(t: Tables, reader: Reader)
  {
    && (forall core, v, next :: ReadAdmits(t, reader, core, v, next))
    && (forall request, v, next, at, asked :: AskAdmits(t, reader, request, v, next, at, asked))
  }

  ghost predicate ReadAdmits(t: Tables, reader: Reader, core: Core, v: string, next: Option<Arg>)
  {
    && (reader.dependency(v).Some? <==> Starts(v, "-M"))
    && (!Starts(v, "-M") ==>
          && (reader.read(core, v, next).Ok? <==> Acceptable(t, MetBy(core), v, next))
          && (reader.read(core, v, next).Ok? ==>
                && MetBy(reader.read(core, v, next).value.0) == After(t, v, MetBy(core))
                && reader.read(core, v, next).value.1 == (if TakesNext(t, v) then 1 else 0)
                && (Lingual(core) ==> Lingual(reader.read(core, v, next).value.0))))
  }

  ghost predicate AskAdmits(
    t: Tables, reader: Reader, request: Request, v: string, next: Option<Arg>, at: nat, asked: Asked)
  {
    reader.dependency(v).Some? && Starts(v, "-M") ==>
      var outcome := reader.ask(request, v, reader.dependency(v).value, next, at);
      && (outcome.Ok? <==> KnownRequest(v) && (TakesNext(t, v) ==> next.Some? && next.value.Text?))
      && (outcome.Ok? ==>
            && outcome.value.1 == (if TakesNext(t, v) then 1 else 0)
            && (Matches(asked, request) ==>
                  Matches(Also(asked, AskedIn(GroupOf(t, v, next))), outcome.value.0)))
  }

  lemma DependencyFlags(t: Tables, v: string)
    requires Orderly(t)
    ensures DependencyOption(RulesOf(t), v) == if Starts(v, "-M") then Some(Rest(v, "-M")) else None
  {
    ShortHeads(v);
    DependencyKind(t, v);
    if Starts(v, "-M") {
      assert v[0] == '-';
      MakesDependency(t, v);
    }
  }

  lemma AdapterReadAdmits(t: Tables, core: Core, v: string, next: Option<Arg>)
    requires Orderly(t)
    ensures ReadAdmits(t, ReaderOf(RulesOf(t)), core, v, next)
  {
    var reader := ReaderOf(RulesOf(t));
    DependencyFlags(t, v);
    assert reader.dependency(v) == DependencyOption(RulesOf(t), v);
    if !Starts(v, "-M") {
      assert reader.read(core, v, next) == CoreStep(RulesOf(t), core, v, next);
      TokenIsRead(t, core, v, next);
    }
  }

  lemma AdapterAskAdmits(t: Tables, request: Request, v: string, next: Option<Arg>, at: nat, asked: Asked)
    requires Orderly(t)
    ensures AskAdmits(t, ReaderOf(RulesOf(t)), request, v, next, at, asked)
  {
    DependencyFlags(t, v);
    if Starts(v, "-M") {
      RequestIsRead(t, request, v, next, at);
      if RequestStep(request, v, Rest(v, "-M"), next, at).Ok? {
        DependencyIsTold(t, request, v, next, at);
        if Matches(asked, request) {
          RequestMatches(t, request, v, next, at, asked);
        }
      }
    }
  }

  lemma AdapterAdmits(t: Tables)
    requires Orderly(t)
    ensures Admits(t, ReaderOf(RulesOf(t)))
  {
    var reader := ReaderOf(RulesOf(t));
    forall core, v, next ensures ReadAdmits(t, reader, core, v, next) {
      AdapterReadAdmits(t, core, v, next);
    }
    forall request, v, next, at: nat, asked ensures AskAdmits(t, reader, request, v, next, at, asked) {
      AdapterAskAdmits(t, request, v, next, at, asked);
    }
  }

  // The run

  /** The line can be read to its end from a position on. */
  ghost predicate Passes(t: Tables, args: seq<Arg>, i: nat, met: Met)
  {
    Readable(t, args, i) && InputsOk(t, KeptGroups(t, args, i), met)
  }

  lemma PassesUnfolds(t: Tables, args: seq<Arg>, i: nat, met: Met)
    requires i < |args| && args[i].Text?
    ensures var v, next := args[i].text, Next(args, i + 1);
            Passes(t, args, i, met) <==>
              if Starts(v, "-M")
              then TokenOk(t, v) && (TakesNext(t, v) ==> next.Some? && next.value.Text?)
                   && Passes(t, args, GroupAt(t, args, i).1, met)
              else Acceptable(t, met, v, next) && Passes(t, args, GroupAt(t, args, i).1, After(t, v, met))
  {
    var (g, next) := GroupAt(t, args, i);
    var rest := KeptGroups(t, args, next);
    if Starts(args[i].text, "-M") {
      assert [] + rest == rest;
    } else {
      assert ([g] + rest)[1..] == rest && ([g] + rest)[0] == g;
    }
  }

  lemma StepAdmits(t: Tables, reader: Reader, args: seq<Arg>, p: Progress, asked: Asked)
    requires Admits(t, reader) && p.index < |args| && args[p.index].Text?
    ensures var v, next := args[p.index].text, Next(args, p.index + 1);
            && (Step(reader, args, p).Ok? <==>
                  if Starts(v, "-M")
                  then TokenOk(t, v) && (TakesNext(t, v) ==> next.Some? && next.value.Text?)
                  else Acceptable(t, MetBy(p.core), v, next))
            && (Step(reader, args, p).Ok? ==>
                  && Step(reader, args, p).value.index == GroupAt(t, args, p.index).1
                  && MetBy(Step(reader, args, p).value.core) == MetAfter(t, args, p.index, MetBy(p.core))
                  && (Lingual(p.core) ==> Lingual(Step(reader, args, p).value.core))
                  && (Matches(asked, p.request) ==>
                        Matches(Also(asked, AskedAt(t, args, p.index)), Step(reader, args, p).value.request)))
  {
    var v, next := args[p.index].text, Next(args, p.index + 1);
    assert ReadAdmits(t, reader, p.core, v, next);
    assert AskAdmits(t, reader, p.request, v, next, p.index, asked);
    assert GroupAt(t, args, p.index).0 == GroupOf(t, v, next);
    NothingAlso(asked);
    if Starts(v, "-M") {
      assert v[0] == '-' && v[0] != "@"[0] && v[1] == 'M';
    }
  }

  lemma NothingAlso(asked: Asked)
    ensures Also(asked, NOTHING_ASKED) == asked && Also(NOTHING_ASKED, asked) == asked
  {
  }

  lemma AlsoAssociates(a: Asked, b: Asked, c: Asked)
    ensures Also(Also(a, b), c) == Also(a, Also(b, c))
  {
  }

  function MetAfter(t: Tables, args: seq<Arg>, i: nat, met: Met): Met
    requires i < |args| && args[i].Text?
  {
    if Starts(args[i].text, "-M") then met else After(t, args[i].text, met)
  }

  function AskedAt(t: Tables, args: seq<Arg>, i: nat): Asked
    requires i < |args| && args[i].Text?
  {
    if Starts(args[i].text, "-M") then AskedIn(GroupAt(t, args, i).0) else NOTHING_ASKED
  }

  /** What a step of the run, or its failure, says about the text from there on. */
  lemma StepPasses(t: Tables, reader: Reader, args: seq<Arg>, p: Progress, asked: Asked)
    requires Admits(t, reader) && Matches(asked, p.request) && p.index < |args| && Lingual(p.core)
    ensures Step(reader, args, p).Err? ==> !Passes(t, args, p.index, MetBy(p.core))
    ensures Step(reader, args, p).Ok? ==>
      var after := Step(reader, args, p).value;
      && (Passes(t, args, p.index, MetBy(p.core)) <==> Passes(t, args, after.index, MetBy(after.core)))
      && Lingual(after.core) && args[p.index].Text?
      && AskedFrom(t, args, p.index) == Also(AskedAt(t, args, p.index), AskedFrom(t, args, after.index))
      && Matches(Also(asked, AskedAt(t, args, p.index)), after.request)
  {
    if args[p.index].Text? {
      StepAdmits(t, reader, args, p, asked);
      PassesBy(t, args, p.index, MetBy(p.core), GroupAt(t, args, p.index).1);
    }
  }

  lemma PassesBy(t: Tables, args: seq<Arg>, i: nat, met: Met, next: nat)
    requires i < |args| && args[i].Text? && next == GroupAt(t, args, i).1
    ensures Passes(t, args, i, met) <==>
      (if Starts(args[i].text, "-M")
       then TokenOk(t, args[i].text)
            && (TakesNext(t, args[i].text) ==> Next(args, i + 1).Some? && Next(args, i + 1).value.Text?)
       else Acceptable(t, met, args[i].text, Next(args, i + 1)))
      && Passes(t, args, next, MetAfter(t, args, i, met))
    ensures AskedFrom(t, args, i) == Also(AskedAt(t, args, i), AskedFrom(t, args, next))
  {
    PassesUnfolds(t, args, i, met);
  }

  /** A line is read to its end exactly when its text passes, and then asks for what its text asks for. */
  lemma {:induction false} RunAdmits(t: Tables, reader: Reader, args: seq<Arg>, p: Progress, asked: Asked)
    requires Admits(t, reader) && Matches(asked, p.request) && Lingual(p.core)
    ensures Run(reader, args, p).Ok? <==> Passes(t, args, p.index, MetBy(p.core))
    ensures Run(reader, args, p).Ok? ==>
      && Matches(Also(asked, AskedFrom(t, args, p.index)), Run(reader, args, p).value.request)
      && Lingual(Run(reader, args, p).value.core)
    decreases |args| - p.index
  {
    if p.index >= |args| {
      NothingAlso(asked);
    } else {
      StepPasses(t, reader, args, p, asked);
      if Step(reader, args, p).Ok? {
        var after, here := Step(reader, args, p).value, AskedAt(t, args, p.index);
        RunAdmits(t, reader, args, after, Also(asked, here));
        AlsoAssociates(asked, here, AskedFrom(t, args, after.index));
      }
    }
  }

  // The end of the line

  /** What must have been given by the end, and how the caller's list must fit in. */
  ghost predicate Complete(family: Family, told: Facts, asked: Asked)
  {
    var preprocessing := "-E" in told.flags;
    && ("-c" in told.flags || preprocessing) && told.sources != [] && told.outputs != []
    && (asked.listings == [] ==> asked.files == [] && asked.targets == [] && !asked.phony)
    && (preprocessing ==>
          && !IsDash(told.outputs[|told.outputs| - 1])
          && (asked.files != [] ==> !IsDash(asked.files[|asked.files| - 1]))
          && (asked.listings != [] ==> asked.files != [])
          && (asked.listings != [] && asked.targets == [] && family == Gcc ==>
                Paths.FileName(told.sources[|told.sources| - 1]).Some?))
  }

  /** The list the caller wants: where, with which targets, which headers, and whether with phony rules. */
  ghost predicate IsAsked(list: Option<CallerDepfile>, family: Family, told: Facts, asked: Asked)
    requires told.sources != [] && told.outputs != []
  {
    if asked.listings == [] then list == None
    else
      var output, source := told.outputs[|told.outputs| - 1], told.sources[|told.sources| - 1];
      list == Some(CallerDepfile(
        if asked.files != [] then Named(asked.files[|asked.files| - 1]) else BesideOutput(output),
        if asked.targets != [] then Given(asked.targets)
        else if "-E" in told.flags && family == Gcc then ObjectOf(source) else OutputName(output),
        asked.listings[|asked.listings| - 1] == "-MMD", asked.phony))
  }

  lemma ListIsAsked(core: Core, request: Request, family: Family, told: Facts, asked: Asked)
    requires Sums(told, core) && Matches(asked, request) && core.source.Some? && core.output.Some?
    ensures Depfile(core, request, family).Ok? <==>
      && (asked.listings == [] ==> asked.files == [] && asked.targets == [] && !asked.phony)
      && (asked.listings != [] && asked.targets == [] && core.preprocessing && family == Gcc ==>
            Paths.FileName(core.source.value).Some?)
    ensures Depfile(core, request, family).Ok? ==> IsAsked(Depfile(core, request, family).value, family, told, asked)
  {
  }

  lemma ConcludesWhen(rules: Rules, core: Core, request: Request, family: Family, args: seq<Arg>)
    ensures Conclude(rules, core, request, family, args).Ok? <==>
      && (core.compiling || core.preprocessing) && core.source.Some? && core.output.Some?
      && (core.preprocessing ==>
            && !IsDash(core.output.value) && (request.userHeadersOnly.Some? ==> request.file.Some?)
            && (request.file.Some? ==> !IsDash(request.file.value)))
      && LanguageOf(rules, core, core.source.value).Some? && Depfile(core, request, family).Ok?
    ensures Conclude(rules, core, request, family, args).Ok? ==>
      Ok(Conclude(rules, core, request, family, args).value.callerDepfile) == Depfile(core, request, family)
  {
  }

  lemma Concluding(
    rules: Rules, core: Core, request: Request, family: Family, args: seq<Arg>, told: Facts, asked: Asked)
    requires Sums(told, core) && Matches(asked, request)
    requires core.source.Some? ==> LanguageOf(rules, core, core.source.value).Some?
    ensures Conclude(rules, core, request, family, args).Ok? <==> Complete(family, told, asked)
    ensures Conclude(rules, core, request, family, args).Ok? ==>
      IsAsked(Conclude(rules, core, request, family, args).value.callerDepfile, family, told, asked)
  {
    ConcludesWhen(rules, core, request, family, args);
    if core.source.Some? && core.output.Some? {
      ListIsAsked(core, request, family, told, asked);
    }
  }

  /**
    Exactly which lines are admitted, and what list the caller of one wants: the
    line passes, argument by argument, and is complete.
   */
  lemma AdmittedExactly(t: Tables, family: Family, args: seq<Arg>)
    requires Orderly(t)
    ensures var told, asked := ToldAll(t, KeptGroups(t, args, 0)), AskedFrom(t, args, 0);
            && (Parsed(RulesOf(t), family, args).Ok? <==>
                  Passes(t, args, 0, Met(false, false)) && Complete(family, told, asked))
            && (Parsed(RulesOf(t), family, args).Ok? ==>
                  && Complete(family, told, asked)
                  && IsAsked(Parsed(RulesOf(t), family, args).value.callerDepfile, family, told, asked))
  {
    var reader, told, asked := ReaderOf(RulesOf(t)), ToldAll(t, KeptGroups(t, args, 0)), AskedFrom(t, args, 0);
    AdapterAdmits(t);
    RunAdmits(t, reader, args, START, NOTHING_ASKED);
    NothingAlso(asked);
    if Run(reader, args, START).Ok? {
      var end := Run(reader, args, START).value;
      AdapterTells(t);
      StartIsTold();
      RunTells(t, reader, args, START, end, NOTHING);
      PlusAssociates(told, NOTHING, NOTHING);
      ParsedFrom(RulesOf(t), family, args, end);
      Concluding(RulesOf(t), end.core, end.request, family, args, told, asked);
    }
  }

  // The reasons given

  lemma EarlyReasons(t: Tables, v: string)
    requires Orderly(t) && Starts(v, "-") && !Starts(v, "-M")
    ensures v in t.query || Starts(v, "-print") ==> Classify(t, v) == Reject(CompilerQuery)
    ensures v !in t.query ==>
      && (v == "-S" ==> Classify(t, v) == Reject(NonObjectOutput))
      && (Starts(v, "-save-temps") ==> Classify(t, v) == Reject(SaveTemps))
      && (v == "--coverage" ==> Classify(t, v) == Reject(CoverageInstrumentation))
      && (PassesThrough(t, v) ==> Classify(t, v) == Reject(ToolPassthrough))
      && (Starts(v, "-include-pch") || v == "-emit-pch" ==> Classify(t, v) == Reject(PrecompiledHeader))
  {
    ShortHeads(v);
    RefusedHeads(v);
    if Starts(v, "-Wa,") {
      OptionsAreListed(t, Rest(v, "-Wa,"));
    }
  }

  /** Why an option of the compiler proper is refused. */
  ghost predicate OptionReason(v: string, reason: Reason)
  {
    if Starts(v, "-fplugin") || Starts(v, "-fpass-plugin") then reason == Plugin
    else if Starts(v, "-fprofile-") || v == "-ftest-coverage" then reason == CoverageInstrumentation
    else if v == "-mllvm" then reason == ToolPassthrough
    else if RefusedOption(v) then reason == LocalCpuTarget
    else if Starts(v, "-gsplit-dwarf") then reason == SplitDebugOutput
    else reason == UnknownFlag
  }

  lemma ReasonF(t: Tables, v: string)
    requires Starts(v, "-f") && ClassifyF(t, v, Rest(v, "-f")).Reject?
    ensures OptionReason(v, ClassifyF(t, v, Rest(v, "-f")).reason)
  {
    ShortHeads(v);
    RefusedHeads(v);
    SplitDwarf(v);
    OptionsF(v);
    FHeads(v);
  }

  lemma ReasonM(t: Tables, v: string)
    requires Starts(v, "-m") && ClassifyM(t, v, Rest(v, "-m")).Reject?
    ensures OptionReason(v, ClassifyM(t, v, Rest(v, "-m")).reason)
  {
    FHeads(v);
    ShortHeads(v);
    SplitDwarf(v);
    Within(v, "-m", "llvm");
    assert "-m" + "llvm" == "-mllvm";
  }

  lemma SplitDwarf(v: string)
    ensures Starts(v, "-gsplit-dwarf") ==> Starts(v, "-g") && Second(v) == 'g'
  {
    Head(v, "-gsplit-dwarf");
    assert Starts(v, "-gsplit-dwarf") ==> v[..2] == "-gsplit-dwarf"[..2];
  }

  /** Any other refusal is of an option of the compiler proper, for its reason, or of an unknown flag. */
  lemma LateReasons(t: Tables, v: string)
    requires Orderly(t) && Starts(v, "-") && !Starts(v, "-M") && !RefusedFirst(t, v) && Classify(t, v).Reject?
    ensures OptionReason(v, Classify(t, v).reason)
  {
    RefusedFirstIs(t, v);
    NotRefusedFirst(t, v);
    ShortHeads(v);
    LongHeads(v);
    AllHeads(t, v);
    assert Classify(t, v) == ClassifyRest(t, v);
    if Starts(v, "-f") {
      ReasonF(t, v);
    } else if Starts(v, "-m") {
      ReasonM(t, v);
    } else {
      SplitDwarf(v);
      FHeads(v);
    }
  }

  // The adapter's lists

  const QUERY_FLAGS := {"--help", "--version", "-###", "-?", "-dumpmachine", "-dumpversion", "-v"}
  const BARE_FLAGS := {
    "-P", "-ansi", "-nostdinc", "-nostdinc++", "-pedantic", "-pedantic-errors", "-pipe", "-pthread", "-w"}
  const OPTIMIZE_FLAGS := {"-O", "-O0", "-O1", "-O2", "-O3", "-Ofast", "-Og", "-Os", "-Oz"}
  const DEBUG_FLAGS := {
    "-g", "-g0", "-g1", "-g2", "-g3", "-gdwarf-2", "-gdwarf-3", "-gdwarf-4", "-gdwarf-5", "-gfull", "-ggdb", "-ggdb0",
    "-ggdb1", "-ggdb2", "-ggdb3"}
  const PASSTHROUGH_FLAGS := {"-Xassembler", "-Xclang", "-Xlinker", "-Xpreprocessor"}

  lemma AdapterIsOrderly(t: Tables)
    requires t.separatePath == SEPARATE_PATH_FLAGS && t.prefixMap == PREFIX_MAP_FLAGS && t.query == QUERY_FLAGS
    requires t.bare == BARE_FLAGS && t.optimize == OPTIMIZE_FLAGS && t.debug == DEBUG_FLAGS
    requires t.passthrough == PASSTHROUGH_FLAGS
    ensures Orderly(t)
  {
    AdapterIsRegular(t);
    BareHeads();
    OptimizeHeads();
    DebugHeads();
    QueryHeads();
    PrefixMapHeads();
  }

  lemma BareHeads()
    ensures forall v :: v in BARE_FLAGS ==> Second(v) in {'P', 'a', 'n', 'p', 'w'}
    ensures forall v :: v in PASSTHROUGH_FLAGS ==> Second(v) == 'X'
  {
  }

  lemma OptimizeHeads()
    ensures forall v :: v in OPTIMIZE_FLAGS ==> Second(v) == 'O'
  {
  }

  lemma DebugHeads()
    ensures forall v :: v in DEBUG_FLAGS ==> Second(v) == 'g'
  {
  }

  lemma QueryHeads()
    ensures forall v :: v in QUERY_FLAGS ==> Second(v) != 'M'
  {
  }

  lemma PrefixMapHeads()
    ensures forall k :: 0 <= k < |PREFIX_MAP_FLAGS| ==>
              Third(PREFIX_MAP_FLAGS[k]) != 'p' && Third(PREFIX_MAP_FLAGS[k]) != 't'
  {
  }
}
