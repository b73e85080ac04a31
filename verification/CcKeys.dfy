/**
  What the parsed arguments, which go into the cache key, say about the command
  line. The line is read here as text alone: which flags take the next argument,
  how each flag and its value are spelled in one canonical way, and which values
  a flag gives. The parser is then shown to gather exactly that.
 */
module CcKeys {
  import opened Cache
  import opened CcParser
  import opened CcStripping
  import Paths

  // A command line as text

  /** A flag with the argument it takes, or a single argument. */
  datatype Group = Group(flag: string, value: Option<string>)

  /** What the adapter's allowlists have in common: `-i` flags with separate paths, `-f` prefix maps. */
  ghost predicate Regular(t: Tables)
  {
    && (forall flag :: flag in t.separatePath ==> Starts(flag, "-i"))
    && (forall k :: 0 <= k < |t.prefixMap| ==> Starts(t.prefixMap[k], "-f"))
  }

  /** Flags that stand for themselves. */
  predicate Listed(t: Tables, v: string) { v in t.bare || v in t.optimize || v in t.debug }

  predicate Bears(t: Tables, v: string, prefix: string) { Starts(v, prefix) && !Listed(t, v) }

  predicate TakesNext(t: Tables, v: string)
  {
    || v == "-MF" || v == "-MT" || v == "-MQ"
    || (&& !Listed(t, v)
        && (|| v in t.separatePath || v == "-o" || v == "-I" || v == "-D" || v == "-U" || v == "-x"
            || v == "--param" || v == "-target" || v == "-arch"))
  }

  /** The group at a position, and where the next one begins. */
  function GroupAt(t: Tables, args: seq<Arg>, i: nat): (Group, nat)
    requires i < |args| && args[i].Text?
  {
    var v, next := args[i].text, Next(args, i + 1);
    if TakesNext(t, v) && next.Some? && next.value.Text? then (Group(v, Some(next.value.text)), i + 2)
    else (Group(v, None), i + 1)
  }

  /** The line in groups, dependency flags and their values left out. */
  function KeptGroups(t: Tables, args: seq<Arg>, i: nat): seq<Group>
    decreases |args| - i
  {
    if i >= |args| || args[i].Raw? then [] else
    var (group, next) := GroupAt(t, args, i);
    (if Starts(args[i].text, "-M") then [] else [group]) + KeptGroups(t, args, next)
  }

  /** The value of a flag that begins with `prefix`: the next argument, or what is attached. */
  function ValueOf(g: Group, prefix: string): string
    requires Starts(g.flag, prefix)
  {
    if g.value.Some? then g.value.value else Rest(g.flag, prefix)
  }

  /**
    The one spelling of all that mean the same: the value attached to the flag,
    with an `=` for three flags that have such a form, `--include=` and
    `--sysroot=` without it, and a prefix map's second `=` always written.
   */
  function Spelled(t: Tables, g: Group): string
  {
    var v := g.flag;
    match g.value
    case Some(w) =>
      if v == "--param" || v == "-arch" then v + "=" + w
      else if v == "-target" then "--target=" + w
      else v + w
    case None =>
      if Bears(t, v, "--include=") then "-include" + Rest(v, "--include=")
      else if Bears(t, v, "--sysroot=") then "--sysroot" + Rest(v, "--sysroot=")
      else if !Listed(t, v) && OpenMap(t, v) then v + "="
      else v
  }

  /** A prefix map with nothing to map to. */
  predicate OpenMap(t: Tables, v: string)
  {
    var flag := PrefixMapFlag(t.prefixMap, v);
    flag.Some? && '=' !in Rest(v, flag.value + "=")
  }

  /** What groups say, each list in the order of the line. */
  datatype Facts = Facts(
    flags: seq<string>, spellings: seq<string>, sources: seq<string>, outputs: seq<string>, includes: seq<string>,
    sysroots: seq<string>, languages: seq<string>)

  const NOTHING := Facts([], [], [], [], [], [], [])

  function Plus(a: Facts, b: Facts): Facts
  {
    Facts(a.flags + b.flags, a.spellings + b.spellings, a.sources + b.sources, a.outputs + b.outputs,
          a.includes + b.includes, a.sysroots + b.sysroots, a.languages + b.languages)
  }

  function Told(t: Tables, g: Group): Facts
  {
    var v := g.flag;
    Facts(
      [v], [Spelled(t, g)],
      if Starts(v, "-") then [] else [v],
      if Bears(t, v, "-o") then [ValueOf(g, "-o")] else [],
      if Bears(t, v, "-I") then [ValueOf(g, "-I")]
      else if IsSearchFlag(v) && !Listed(t, v) then [ValueOf(g, v)] else [],
      if Bears(t, v, "--sysroot=") then [Rest(v, "--sysroot=")]
      else if v == "-isysroot" && !Listed(t, v) then [ValueOf(g, v)] else [],
      if Bears(t, v, "-x") then [ValueOf(g, "-x")] else [])
  }

  predicate IsSearchFlag(v: string) { v == "-isystem" || v == "-iquote" || v == "-idirafter" }

  function ToldAll(t: Tables, groups: seq<Group>): Facts
  {
    if groups == [] then NOTHING else Plus(Told(t, groups[0]), ToldAll(t, groups[1..]))
  }

  function LastOf(values: seq<string>): Option<string>
  {
    if values == [] then None else Some(values[|values| - 1])
  }

  // What was gathered, against it

  function Flat(a: Argument): string
  {
    match a
    case Plain(text) => text
    case PathArgument(flag, path) => flag + path
    case PrefixMap(flag, from, to) => flag + "=" + from + "=" + to
    case Source(path) => path
  }

  function Flats(arguments: seq<Argument>): seq<string>
  {
    seq(|arguments|, k requires 0 <= k < |arguments| => Flat(arguments[k]))
  }

  lemma FlatsAppend(arguments: seq<Argument>, a: Argument)
    ensures Flats(arguments + [a]) == Flats(arguments) + [Flat(a)]
  {
  }

  /** The parser has gathered exactly these facts. */
  ghost predicate Sums(facts: Facts, core: Core)
  {
    && Flats(core.parsed) == facts.spellings
    && |facts.sources| <= 1 && core.source == LastOf(facts.sources)
    && core.output == LastOf(facts.outputs)
    && core.includeDirs == facts.includes
    && core.sysroot == LastOf(facts.sysroots)
    && LanguagesMatch(facts, core)
    && (core.compiling <==> "-c" in facts.flags)
    && (core.preprocessing <==> "-E" in facts.flags)
    && core.requiredInputs == []
  }

  ghost predicate LanguagesMatch(facts: Facts, core: Core)
  {
    && (facts.languages == [] ==> core.explicitLanguage == None)
    && (facts.languages != [] ==>
          core.explicitLanguage.Some?
          && core.explicitLanguage == LanguageNamed(facts.languages[|facts.languages| - 1]))
    && (core.preprocessedAssembly <==> "assembler-with-cpp" in facts.languages)
  }

  /** What a flag of a kind says once its value is known. */
  function ByKind(v: string, kind: Kind, w: string): Facts
  {
    var spelled := match kind
      case Output(_) => "-o" + w
      case Include(_) => "-I" + w
      case SeparatePath(flag) => flag + w
      case LongInclude(path) => "-include" + path
      case Prefix(flag, from, to) => flag + "=" + from + "=" + to
      case Param => "--param=" + w
      case Sysroot(path) => "--sysroot" + path
      case Define(flag, _) => flag + w
      case ForceLanguage(_) => "-x" + w
      case TargetTriple => "--target=" + w
      case Arch => "-arch=" + w
      case _ => v;
    Facts(
      [v], [spelled], [],
      if kind.Output? then [w] else [],
      if kind.Include? || (kind.SeparatePath? && IsSearchFlag(v)) then [w] else [],
      if kind.Sysroot? then [kind.path] else if kind.SeparatePath? && v == "-isysroot" then [w] else [],
      if kind.ForceLanguage? then [w] else [])
  }

  /** A kind that goes with its flag. */
  ghost predicate Names(v: string, kind: Kind)
  {
    && (kind.Keep? ==> kind.text == v) && (kind.SeparatePath? ==> kind.flag == v)
    && (kind.Compile? <==> v == "-c") && (kind.Preprocess? <==> v == "-E")
  }

  predicate NamesPath(kind: Kind)
  {
    kind.Output? || kind.Include? || kind.LongInclude? || kind.Sysroot? || kind.Prefix?
  }

  lemma PathsAreGathered(v: string, kind: Kind, w: string, core: Core, facts: Facts)
    requires Sums(facts, core) && Names(v, kind) && NamesPath(kind)
    ensures Sums(Plus(facts, ByKind(v, kind, w)), Apply(kind, core, w).value)
  {
    var after := Apply(kind, core, w).value;
    FlatsAppend(core.parsed, after.parsed[|core.parsed|]);
    assert facts.sources + [] == facts.sources && facts.outputs + [] == facts.outputs;
    assert facts.includes + [] == facts.includes && facts.sysroots + [] == facts.sysroots;
    assert facts.languages + [] == facts.languages;
  }

  lemma SeparatePathFields(v: string, w: string, core: Core)
    ensures var after := Apply(SeparatePath(v), core, w).value;
            && after.includeDirs == core.includeDirs + (if IsSearchFlag(v) then [w] else [])
            && after.sysroot == (if v == "-isysroot" then Some(w) else core.sysroot)
            && after == core.(parsed := core.parsed + [PathArgument(v, w)], includeDirs := after.includeDirs,
                              sysroot := after.sysroot)
  {
    LongHeads(v);
    assert core.includeDirs + [] == core.includeDirs;
    assert IsSearchFlag(v) ==> v != "-isysroot" by {
      assert "-isystem"[5] == 't' && "-iquote"[2] == 'q' && "-idirafter"[2] == 'd' && "-isysroot"[5] == 'r';
    }
  }

  /** A path gathered with what it is for: nothing more, an include directory, or the sysroot. */
  lemma PathIsGathered(v: string, w: string, search: bool, root: bool, core: Core, facts: Facts)
    requires Sums(facts, core) && v != "-c" && v != "-E"
    ensures Sums(Plus(facts, Facts([v], [v + w], [], [], if search then [w] else [], if root then [w] else [], [])),
                 core.(parsed := core.parsed + [PathArgument(v, w)],
                       includeDirs := core.includeDirs + (if search then [w] else []),
                       sysroot := if root then Some(w) else core.sysroot))
  {
    FlatsAppend(core.parsed, PathArgument(v, w));
    assert facts.sources + [] == facts.sources && facts.outputs + [] == facts.outputs;
    assert facts.sysroots + [] == facts.sysroots && facts.languages + [] == facts.languages;
  }

  lemma SeparatePathsAreGathered(v: string, w: string, core: Core, facts: Facts)
    requires Sums(facts, core) && v != "-c" && v != "-E"
    ensures Sums(Plus(facts, ByKind(v, SeparatePath(v), w)), Apply(SeparatePath(v), core, w).value)
  {
    SeparatePathFields(v, w, core);
    PathIsGathered(v, w, IsSearchFlag(v), v == "-isysroot", core, facts);
  }

  /** A word gathered with what it says: the mode, or the language. */
  lemma WordIsGathered(v: string, text: string, language: Option<string>, core: Core, facts: Facts)
    requires Sums(facts, core) && (language.Some? ==> LanguageNamed(language.value).Some?)
    ensures Sums(
      Plus(facts, Facts([v], [text], [], [], [], [], if language.Some? then [language.value] else [])),
      core.(parsed := core.parsed + [Plain(text)],
            explicitLanguage := if language.Some? then LanguageNamed(language.value) else core.explicitLanguage,
            preprocessedAssembly := core.preprocessedAssembly || language == Some("assembler-with-cpp"),
            compiling := core.compiling || v == "-c", preprocessing := core.preprocessing || v == "-E"))
  {
    FlatsAppend(core.parsed, Plain(text));
    assert facts.sources + [] == facts.sources && facts.outputs + [] == facts.outputs;
    assert facts.includes + [] == facts.includes && facts.sysroots + [] == facts.sysroots;
    if language.None? {
      assert facts.languages + [] == facts.languages;
    }
  }

  lemma WordsAreGathered(v: string, kind: Kind, w: string, core: Core, facts: Facts)
    requires Sums(facts, core) && Names(v, kind) && Apply(kind, core, w).Ok?
    requires !NamesPath(kind) && !kind.SeparatePath?
    ensures Sums(Plus(facts, ByKind(v, kind, w)), Apply(kind, core, w).value)
  {
    var after := Apply(kind, core, w).value;
    var last := after.parsed[|core.parsed|];
    WordIsGathered(v, last.text, if kind.ForceLanguage? then Some(w) else None, core, facts);
  }

  lemma SourceIsGathered(rules: Rules, v: string, core: Core, facts: Facts)
    requires Sums(facts, core) && InputStep(rules, core, v).Ok? && v != "-c" && v != "-E"
    ensures Sums(Plus(facts, Facts([v], [v], [v], [], [], [], [])), InputStep(rules, core, v).value)
  {
    FlatsAppend(core.parsed, Source(v));
    assert facts.outputs + [] == facts.outputs && facts.includes + [] == facts.includes;
    assert facts.sysroots + [] == facts.sysroots && facts.languages + [] == facts.languages;
  }

  lemma ValuesAreGathered(v: string, kind: Kind, w: string, core: Core, facts: Facts)
    requires Sums(facts, core) && Names(v, kind) && Apply(kind, core, w).Ok?
    ensures Sums(Plus(facts, ByKind(v, kind, w)), Apply(kind, core, w).value)
  {
    if kind.SeparatePath? {
      SeparatePathsAreGathered(v, w, core, facts);
    } else if NamesPath(kind) {
      PathsAreGathered(v, kind, w, core, facts);
    } else {
      WordsAreGathered(v, kind, w, core, facts);
    }
  }

  // What a flag is, from its text

  /** The character after the dash. */
  function Second(v: string): char { if |v| >= 2 && v[0] == '-' then v[1] else ' ' }

  function Third(v: string): char { if |v| >= 3 then v[2] else ' ' }

  lemma Head(v: string, prefix: string)
    requires |prefix| >= 2 && prefix[0] == '-'
    ensures Starts(v, prefix) ==> Second(v) == prefix[1]
    ensures Starts(v, prefix) && |prefix| >= 3 ==> Third(v) == prefix[2]
  {
  }

  /** The prefixes that decide what a flag is, told apart by a character or two. */
  lemma ShortHeads(v: string)
    ensures Starts(v, "-o") ==> Second(v) == 'o'
    ensures Starts(v, "-I") ==> Second(v) == 'I'
    ensures Starts(v, "-D") ==> Second(v) == 'D'
    ensures Starts(v, "-U") ==> Second(v) == 'U'
    ensures Starts(v, "-x") ==> Second(v) == 'x'
    ensures Starts(v, "-M") ==> Second(v) == 'M'
    ensures Starts(v, "-W") ==> Second(v) == 'W'
    ensures Starts(v, "-f") ==> Second(v) == 'f'
    ensures Starts(v, "-m") ==> Second(v) == 'm'
    ensures Starts(v, "-i") ==> Second(v) == 'i'
    ensures Starts(v, "-std=") ==> Second(v) == 's'
    ensures Starts(v, "-Wa,") ==> Second(v) == 'W'
    ensures v == "-c" ==> Second(v) == 'c'
    ensures v == "-E" ==> Second(v) == 'E'
  {
    Head(v, "-o");
    Head(v, "-I");
    Head(v, "-D");
    Head(v, "-U");
    Head(v, "-x");
    Head(v, "-M");
    Head(v, "-W");
    Head(v, "-f");
    Head(v, "-m");
    Head(v, "-i");
    Head(v, "-std=");
    Head(v, "-Wa,");
  }

  lemma LongHeads(v: string)
    ensures Starts(v, "--include=") ==> Second(v) == '-' && Third(v) == 'i'
    ensures Starts(v, "--sysroot=") ==> Second(v) == '-' && Third(v) == 's'
    ensures Starts(v, "--param=") || v == "--param" ==> Second(v) == '-' && Third(v) == 'p'
    ensures Starts(v, "--target=") ==> Second(v) == '-' && Third(v) == 't'
    ensures v == "-target" ==> Second(v) == 't'
    ensures v == "-arch" ==> Second(v) == 'a'
    ensures IsSearchFlag(v) || v == "-isysroot" ==> Second(v) == 'i'
    ensures v == "-MF" || v == "-MT" || v == "-MQ" ==> Starts(v, "-M")
  {
    Head(v, "--include=");
    Head(v, "--sysroot=");
    Head(v, "--param=");
    Head(v, "--target=");
  }

  lemma {:induction false} PrefixMapsStart(flags: seq<string>, v: string)
    requires forall k :: 0 <= k < |flags| ==> Starts(flags[k], "-f")
    ensures PrefixMapFlag(flags, v).Some? ==> Starts(v, "-f")
  {
    if flags != [] && !Starts(v, flags[0] + "=") {
      PrefixMapsStart(flags[1..], v);
    } else if flags != [] {
      assert Starts(flags[0], "-f");
    }
  }

  lemma {:induction false} SplitsAtEquals(s: string)
    ensures var (name, value) := SplitOnce(s);
            if '=' in s then s == name + "=" + value else name == s && value == ""
  {
    if s != [] && s[0] != '=' {
      SplitsAtEquals(s[1..]);
      assert s == [s[0]] + s[1..];
    } else if s != [] {
      assert s == "" + "=" + s[1..];
    }
  }

  /** What the text of an admitted flag is, by its kind. */
  ghost predicate Reads(t: Tables, v: string, kind: Kind)
  {
    match kind
    case Reject(_) => true
    case Dependency(_) => true
    case Preprocess => v == "-E"
    case Compile => v == "-c"
    case Keep(text) => text == v && v != "-c" && v != "-E" && (Listed(t, v) || StandsAlone(t, v))
    case Output(inline) => !Listed(t, v) && v == "-o" + inline
    case Include(inline) => !Listed(t, v) && v == "-I" + inline
    case SeparatePath(flag) => !Listed(t, v) && flag == v && v in t.separatePath
    case LongInclude(path) => !Listed(t, v) && v == "--include=" + path
    case Prefix(flag, from, to) =>
      && !Listed(t, v) && PrefixMapFlag(t.prefixMap, v) == Some(flag)
      && SplitOnce(Rest(v, flag + "=")) == (from, to)
    case Param => !Listed(t, v) && v == "--param"
    case Sysroot(path) => !Listed(t, v) && v == "--sysroot=" + path
    case Define(flag, inline) => !Listed(t, v) && (flag == "-D" || flag == "-U") && v == flag + inline
    case ForceLanguage(inline) => !Listed(t, v) && v == "-x" + inline
    case TargetTriple => !Listed(t, v) && v == "-target"
    case Arch => !Listed(t, v) && v == "-arch"
  }

  /** A flag outside the lists that is kept as it is. */
  ghost predicate StandsAlone(t: Tables, v: string)
  {
    && PrefixMapFlag(t.prefixMap, v).None?
    && (|| Second(v) == 'W' || Second(v) == 's' || Second(v) == 'f' || Second(v) == 'm'
        || (Second(v) == '-' && v != "--param" && (Third(v) == 'p' || Third(v) == 't')))
  }

  lemma Attached(v: string, prefix: string)
    requires Starts(v, prefix)
    ensures v == prefix + Rest(v, prefix)
  {
  }

  lemma RestReads(t: Tables, v: string)
    requires Regular(t) && !Listed(t, v) && v != "-c" && v != "-E"
    ensures Reads(t, v, ClassifyRest(t, v))
  {
    ShortHeads(v);
    LongHeads(v);
    var kind := ClassifyRest(t, v);
    match kind
    case Sysroot(_) => Attached(v, "--sysroot=");
    case Define(flag, _) => Attached(v, flag);
    case ForceLanguage(_) => Attached(v, "-x");
    case _ =>
  }

  lemma FlagReads(t: Tables, v: string)
    requires Regular(t)
    ensures Reads(t, v, Classify(t, v))
  {
    ShortHeads(v);
    PrefixMapsStart(t.prefixMap, v);
    var kind := Classify(t, v);
    if kind == ClassifyRest(t, v) && !Listed(t, v) && v != "-c" && v != "-E" {
      RestReads(t, v);
    } else if Starts(v, "-o") {
      Attached(v, "-o");
    } else if Starts(v, "-I") {
      Attached(v, "-I");
    } else if Starts(v, "--include=") {
      Attached(v, "--include=");
    }
  }

  /** The group is the flag with the value its kind takes, `w`. */
  ghost predicate Carries(g: Group, kind: Kind, w: string)
  {
    match Inline(kind)
    case None => g.value == None
    case Some(inline) => if inline == "" then g.value == Some(w) else g.value == None && w == inline
  }

  ghost predicate Admitted(t: Tables, v: string, kind: Kind)
  {
    Regular(t) && Starts(v, "-") && !Starts(v, "-M") && Reads(t, v, kind) && !kind.Reject? && !kind.Dependency?
  }

  lemma Heads(t: Tables, v: string)
    requires Regular(t)
    ensures v in t.separatePath ==> Second(v) == 'i'
    ensures PrefixMapFlag(t.prefixMap, v).Some? ==> Second(v) == 'f'
  {
    ShortHeads(v);
    PrefixMapsStart(t.prefixMap, v);
  }

  lemma FlagsTakeNext(t: Tables, v: string, kind: Kind)
    requires Admitted(t, v, kind)
    ensures Names(v, kind)
    ensures TakesNext(t, v) <==> Inline(kind) == Some("")
  {
    ShortHeads(v);
    LongHeads(v);
    Heads(t, v);
    Length(v, kind);
  }

  lemma Length(v: string, kind: Kind)
    ensures kind.Output? && v == "-o" + kind.inline ==> (kind.inline == "" <==> v == "-o")
    ensures kind.Include? && v == "-I" + kind.inline ==> (kind.inline == "" <==> v == "-I")
    ensures kind.ForceLanguage? && v == "-x" + kind.inline ==> (kind.inline == "" <==> v == "-x")
    ensures kind.Define? && v == kind.flag + kind.inline ==> (kind.inline == "" <==> v == kind.flag)
  {
  }

  lemma MapIsSpelled(v: string, flag: string, rest: string)
    requires v == flag + "=" + rest
    ensures (if '=' in rest then v else v + "=") == flag + "=" + SplitOnce(rest).0 + "=" + SplitOnce(rest).1
  {
    SplitsAtEquals(rest);
    var (from, to) := SplitOnce(rest);
    if '=' in rest {
      assert flag + "=" + (from + "=" + to) == flag + "=" + from + "=" + to;
    } else {
      assert flag + "=" + rest + "=" == flag + "=" + from + "=" + to;
    }
  }

  lemma MapSpellingIsTold(t: Tables, g: Group, kind: Kind, w: string)
    requires Admitted(t, g.flag, kind) && Carries(g, kind, w) && kind.Prefix?
    ensures [Spelled(t, g)] == ByKind(g.flag, kind, w).spellings
  {
    ShortHeads(g.flag);
    LongHeads(g.flag);
    Heads(t, g.flag);
    Attached(g.flag, kind.flag + "=");
    MapIsSpelled(g.flag, kind.flag, Rest(g.flag, kind.flag + "="));
  }

  lemma ValueSpellingIsTold(t: Tables, g: Group, kind: Kind, w: string)
    requires Admitted(t, g.flag, kind) && Carries(g, kind, w) && Inline(kind) == Some("")
    ensures [Spelled(t, g)] == ByKind(g.flag, kind, w).spellings
  {
    ShortHeads(g.flag);
    LongHeads(g.flag);
    Heads(t, g.flag);
    Length(g.flag, kind);
    assert "--param" + "=" == "--param=" && "-arch" + "=" == "-arch=";
  }

  lemma SpellingIsTold(t: Tables, g: Group, kind: Kind, w: string)
    requires Admitted(t, g.flag, kind) && Carries(g, kind, w)
    ensures [Spelled(t, g)] == ByKind(g.flag, kind, w).spellings
  {
    if kind.Prefix? {
      MapSpellingIsTold(t, g, kind, w);
    } else if Inline(kind) == Some("") {
      ValueSpellingIsTold(t, g, kind, w);
    } else {
      ShortHeads(g.flag);
      LongHeads(g.flag);
      Heads(t, g.flag);
    }
  }

  lemma PathsAreTold(t: Tables, g: Group, kind: Kind, w: string)
    requires Admitted(t, g.flag, kind) && Carries(g, kind, w)
    ensures Told(t, g).outputs == ByKind(g.flag, kind, w).outputs
    ensures Told(t, g).includes == ByKind(g.flag, kind, w).includes
  {
    ShortHeads(g.flag);
    LongHeads(g.flag);
    Heads(t, g.flag);
    Length(g.flag, kind);
  }

  lemma RootsAreTold(t: Tables, g: Group, kind: Kind, w: string)
    requires Admitted(t, g.flag, kind) && Carries(g, kind, w)
    ensures Told(t, g).sysroots == ByKind(g.flag, kind, w).sysroots
    ensures Told(t, g).languages == ByKind(g.flag, kind, w).languages
  {
    ShortHeads(g.flag);
    LongHeads(g.flag);
    Heads(t, g.flag);
    Length(g.flag, kind);
  }

  lemma ListsAreTold(t: Tables, g: Group, kind: Kind, w: string)
    requires Admitted(t, g.flag, kind) && Carries(g, kind, w)
    ensures Told(t, g) == ByKind(g.flag, kind, w).(spellings := [Spelled(t, g)])
  {
    PathsAreTold(t, g, kind, w);
    RootsAreTold(t, g, kind, w);
  }

  // The whole line

  lemma PlusAssociates(a: Facts, b: Facts, c: Facts)
    ensures Plus(Plus(a, b), c) == Plus(a, Plus(b, c))
    ensures Plus(a, NOTHING) == a && Plus(NOTHING, a) == a
  {
  }

  lemma FirstTold(t: Tables, g: Group, rest: seq<Group>)
    ensures ToldAll(t, [g] + rest) == Plus(Told(t, g), ToldAll(t, rest))
  {
    assert ([g] + rest)[1..] == rest;
  }

  /** A flag, with the value it takes, adds what its text says. */
  lemma FlagTells(t: Tables, core: Core, v: string, next: Option<Arg>, facts: Facts)
    requires Regular(t) && Starts(v, "-") && !Starts(v, "-M") && Sums(facts, core)
    requires FlagStep(Classify(t, v), core, next).Ok?
    ensures TokenTold(t, v, next, facts, FlagStep(Classify(t, v), core, next).value)
  {
    var kind := Classify(t, v);
    FlagReads(t, v);
    FlagsTakeNext(t, v, kind);
    var w := match Inline(kind)
      case None => ""
      case Some(inline) => TakeValue(inline, next).value.0;
    var g := Group(v, if Inline(kind) == Some("") then Some(w) else None);
    ValuesAreGathered(v, kind, w, core, facts);
    SpellingIsTold(t, g, kind, w);
    ListsAreTold(t, g, kind, w);
  }

  /** The step used what the text says, and gathered what it says. */
  ghost predicate TokenTold(t: Tables, v: string, next: Option<Arg>, facts: Facts, after: (Core, nat))
  {
    var g := Group(v, if TakesNext(t, v) && next.Some? && next.value.Text? then Some(next.value.text) else None);
    && (if TakesNext(t, v) then after.1 == 1 && next.Some? && next.value.Text? else after.1 == 0)
    && Sums(Plus(facts, Told(t, g)), after.0)
  }

  lemma SourceIsNoFlag(t: Tables, v: string)
    requires Regular(t) && !Starts(v, "-")
    ensures v != "-c" && v != "-E" && !TakesNext(t, v)
    ensures Told(t, Group(v, None)) == Facts([v], [v], [v], [], [], [], [])
  {
    assert Second(v) == ' ';
    ShortHeads(v);
    LongHeads(v);
    Heads(t, v);
  }

  lemma TokenTells(t: Tables, core: Core, v: string, next: Option<Arg>, facts: Facts)
    requires Regular(t) && !Starts(v, "-M") && Sums(facts, core) && CoreStep(RulesOf(t), core, v, next).Ok?
    ensures TokenTold(t, v, next, facts, CoreStep(RulesOf(t), core, v, next).value)
  {
    if Starts(v, "-") {
      FlagTells(t, core, v, next, facts);
    } else {
      SourceIsNoFlag(t, v);
      SourceIsGathered(RulesOf(t), v, core, facts);
    }
  }

  /** A dependency flag is one that begins with `-M`, and uses what its text says. */
  lemma DependencyIsTold(t: Tables, request: Request, v: string, next: Option<Arg>, at: nat)
    requires Regular(t) && Starts(v, "-M")
    requires RequestStep(request, v, Rest(v, "-M"), next, at).Ok?
    ensures var used := RequestStep(request, v, Rest(v, "-M"), next, at).value.1;
            if TakesNext(t, v) then used == 1 && next.Some? && next.value.Text? else used == 0
  {
    var option := Rest(v, "-M");
    Attached(v, "-M");
    ShortHeads(v);
    LongHeads(v);
    Heads(t, v);
    assert option == "F" <==> v == "-MF" by { assert "-MF" == "-M" + "F"; }
    assert option == "T" <==> v == "-MT" by { assert "-MT" == "-M" + "T"; }
    assert option == "Q" <==> v == "-MQ" by { assert "-MQ" == "-M" + "Q"; }
  }

  lemma DependencyKind(t: Tables, v: string)
    ensures Classify(t, v).Dependency? ==> Starts(v, "-M") && Classify(t, v).option == Rest(v, "-M")
    ensures Starts(v, "-M") ==> Classify(t, v).Dependency? || Classify(t, v).Reject?
  {
    ShortHeads(v);
  }

  /** A reader whose every step uses and gathers what the text says. */
  ghost predicate Tells(t: Tables, reader: Reader)
  {
    && (forall core, v, next, facts :: ReadTells(t, reader, core, v, next, facts))
    && (forall request, v, next, at :: AskTells(t, reader, request, v, next, at))
  }

  ghost predicate ReadTells(t: Tables, reader: Reader, core: Core, v: string, next: Option<Arg>, facts: Facts)
  {
    reader.dependency(v).None? && reader.read(core, v, next).Ok? && Sums(facts, core) ==>
      !Starts(v, "-M") && TokenTold(t, v, next, facts, reader.read(core, v, next).value)
  }

  ghost predicate AskTells(t: Tables, reader: Reader, request: Request, v: string, next: Option<Arg>, at: nat)
  {
    reader.dependency(v).Some? && reader.ask(request, v, reader.dependency(v).value, next, at).Ok? ==>
      && Starts(v, "-M")
      && var used := reader.ask(request, v, reader.dependency(v).value, next, at).value.1;
      if TakesNext(t, v) then used == 1 && next.Some? && next.value.Text? else used == 0
  }

  lemma AdapterReads(t: Tables, core: Core, v: string, next: Option<Arg>, facts: Facts)
    requires Regular(t)
    ensures ReadTells(t, ReaderOf(RulesOf(t)), core, v, next, facts)
  {
    var reader := ReaderOf(RulesOf(t));
    if reader.dependency(v).None? && reader.read(core, v, next).Ok? && Sums(facts, core) {
      assert reader.read(core, v, next) == CoreStep(RulesOf(t), core, v, next);
      assert reader.dependency(v) == DependencyOption(RulesOf(t), v);
      NotADependency(t, core, v, next);
      TokenTells(t, core, v, next, facts);
    }
  }

  lemma NotADependency(t: Tables, core: Core, v: string, next: Option<Arg>)
    requires DependencyOption(RulesOf(t), v).None? && CoreStep(RulesOf(t), core, v, next).Ok?
    ensures !Starts(v, "-M")
  {
    DependencyKind(t, v);
    ShortHeads(v);
  }

  lemma AdapterAsks(t: Tables, request: Request, v: string, next: Option<Arg>, at: nat)
    requires Regular(t)
    ensures AskTells(t, ReaderOf(RulesOf(t)), request, v, next, at)
  {
    var reader := ReaderOf(RulesOf(t));
    if reader.dependency(v).Some? && reader.ask(request, v, reader.dependency(v).value, next, at).Ok? {
      assert reader.dependency(v) == DependencyOption(RulesOf(t), v);
      assert RulesOf(t).classify(v) == Classify(t, v);
      DependencyKind(t, v);
      DependencyIsTold(t, request, v, next, at);
    }
  }

  lemma AdapterTells(t: Tables)
    requires Regular(t)
    ensures Tells(t, ReaderOf(RulesOf(t)))
  {
    forall core, v, next, facts ensures ReadTells(t, ReaderOf(RulesOf(t)), core, v, next, facts) {
      AdapterReads(t, core, v, next, facts);
    }
    forall request, v, next, at: nat ensures AskTells(t, ReaderOf(RulesOf(t)), request, v, next, at) {
      AdapterAsks(t, request, v, next, at);
    }
  }

  /** One step of the parser is one group of the line. */
  lemma StepTells(t: Tables, reader: Reader, args: seq<Arg>, p: Progress, after: Progress, facts: Facts)
    requires Tells(t, reader) && p.index < |args| && Sums(facts, p.core) && Step(reader, args, p) == Ok(after)
    ensures args[p.index].Text? && after.index == GroupAt(t, args, p.index).1
    ensures if Starts(args[p.index].text, "-M") then after.core == p.core
            else Sums(Plus(facts, Told(t, GroupAt(t, args, p.index).0)), after.core)
  {
    var v, next := args[p.index].text, Next(args, p.index + 1);
    assert ReadTells(t, reader, p.core, v, next, facts);
    assert AskTells(t, reader, p.request, v, next, p.index);
  }

  lemma LineUnfolds(t: Tables, args: seq<Arg>, i: nat, facts: Facts)
    requires i < |args| && args[i].Text?
    ensures var (g, next) := GroupAt(t, args, i);
            Plus(facts, ToldAll(t, KeptGroups(t, args, i)))
            == Plus(if Starts(args[i].text, "-M") then facts else Plus(facts, Told(t, g)),
                    ToldAll(t, KeptGroups(t, args, next)))
  {
    var (g, next) := GroupAt(t, args, i);
    var rest := KeptGroups(t, args, next);
    if Starts(args[i].text, "-M") {
      assert [] + rest == rest;
    } else {
      FirstTold(t, g, rest);
      PlusAssociates(facts, Told(t, g), ToldAll(t, rest));
    }
  }

  lemma {:induction false} RunTells(
    t: Tables, reader: Reader, args: seq<Arg>, p: Progress, end: Progress, facts: Facts)
    requires Tells(t, reader) && Sums(facts, p.core) && Run(reader, args, p) == Ok(end)
    ensures Sums(Plus(facts, ToldAll(t, KeptGroups(t, args, p.index))), end.core)
    decreases |args| - p.index
  {
    if p.index < |args| {
      var after := Step(reader, args, p).value;
      StepTells(t, reader, args, p, after, facts);
      LineUnfolds(t, args, p.index, facts);
      if Starts(args[p.index].text, "-M") {
        RunTells(t, reader, args, after, end, facts);
      } else {
        RunTells(t, reader, args, after, end, Plus(facts, Told(t, GroupAt(t, args, p.index).0)));
      }
    } else {
      PlusAssociates(facts, NOTHING, NOTHING);
    }
  }

  /**
    What an admitted line is parsed to, from its text: the arguments are its kept
    groups, each in its one spelling and in order; the source is its one argument
    that is no flag; the output, the sysroot and the language are the last given;
    and the include directories are all those given, in order.
   */
  ghost predicate IsTold(invocation: Invocation, told: Facts, args: seq<Arg>)
  {
    && Flats(invocation.arguments) == told.spellings
    && told.sources == [invocation.source] && invocation.requiredInputs == [invocation.source]
    && LastOf(told.outputs) == Some(invocation.output)
    && invocation.includeDirs == told.includes
    && invocation.sysroot == LastOf(told.sysroots)
    && Some(invocation.language) == (match LastOf(told.languages)
                                     case Some(name) => LanguageNamed(name)
                                     case None => LanguageByName(invocation.source))
    && (invocation.preprocessedAssembly <==>
          || "assembler-with-cpp" in told.languages
          || (told.languages == [] && Paths.Extension(invocation.source) == Some("S")))
    && ("-c" in told.flags || "-E" in told.flags)
    && invocation.preprocessingArguments == (if "-E" in told.flags then Some(args) else None)
  }

  /** What the last checks make of the gathered fields. */
  ghost predicate Concludes(rules: Rules, core: Core, args: seq<Arg>, invocation: Invocation)
  {
    && (core.compiling || core.preprocessing)
    && invocation.arguments == core.parsed && Some(invocation.source) == core.source
    && Some(invocation.output) == core.output && invocation.includeDirs == core.includeDirs
    && invocation.requiredInputs == core.requiredInputs + [invocation.source] && invocation.sysroot == core.sysroot
    && LanguageOf(rules, core, invocation.source) == Some(invocation.language)
    && (invocation.preprocessedAssembly <==>
          core.preprocessedAssembly || (core.explicitLanguage.None? && rules.isAssembly(invocation.source)))
    && invocation.preprocessingArguments == (if core.preprocessing then Some(args) else None)
  }

  lemma ConcludesFields(rules: Rules, core: Core, request: Request, family: Family, args: seq<Arg>)
    requires Conclude(rules, core, request, family, args).Ok?
    ensures Concludes(rules, core, args, Conclude(rules, core, request, family, args).value)
  {
  }

  lemma LanguageIsTold(t: Tables, core: Core, told: Facts, source: string)
    requires LanguagesMatch(told, core)
    ensures LanguageOf(RulesOf(t), core, source) == (match LastOf(told.languages)
                                                     case Some(name) => LanguageNamed(name)
                                                     case None => LanguageByName(source))
    ensures core.explicitLanguage.None? <==> told.languages == []
    ensures RulesOf(t).isAssembly(source) <==> Paths.Extension(source) == Some("S")
  {
  }

  lemma ConclusionIsTold(rules: Rules, core: Core, args: seq<Arg>, told: Facts, invocation: Invocation)
    requires Sums(told, core) && Concludes(rules, core, args, invocation)
    requires LanguageOf(rules, core, invocation.source) == (match LastOf(told.languages)
                                                            case Some(name) => LanguageNamed(name)
                                                            case None => LanguageByName(invocation.source))
    requires core.explicitLanguage.None? <==> told.languages == []
    requires rules.isAssembly(invocation.source) <==> Paths.Extension(invocation.source) == Some("S")
    ensures IsTold(invocation, told, args)
  {
    assert [] + [invocation.source] == [invocation.source];
    assert told.sources == [told.sources[0]];
  }

  lemma KeyTellsTheLine(t: Tables, family: Family, args: seq<Arg>)
    requires Regular(t) && Parsed(RulesOf(t), family, args).Ok?
    ensures IsTold(Parsed(RulesOf(t), family, args).value, ToldAll(t, KeptGroups(t, args, 0)), args)
  {
    var end := ParsedRun(RulesOf(t), family, args);
    AdapterTells(t);
    StartIsTold();
    RunTells(t, ReaderOf(RulesOf(t)), args, START, end, NOTHING);
    PlusAssociates(ToldAll(t, KeptGroups(t, args, 0)), NOTHING, NOTHING);
    LineIsTold(t, family, args, end, ToldAll(t, KeptGroups(t, args, 0)));
  }

  lemma LineIsTold(t: Tables, family: Family, args: seq<Arg>, end: Progress, told: Facts)
    requires Sums(told, end.core) && Conclude(RulesOf(t), end.core, end.request, family, args).Ok?
    ensures IsTold(Conclude(RulesOf(t), end.core, end.request, family, args).value, told, args)
  {
    var invocation := Conclude(RulesOf(t), end.core, end.request, family, args).value;
    ConcludesFields(RulesOf(t), end.core, end.request, family, args);
    LanguageIsTold(t, end.core, told, invocation.source);
    ConclusionIsTold(RulesOf(t), end.core, args, told, invocation);
  }

  lemma StartIsTold()
    ensures Sums(NOTHING, EMPTY_CORE)
  {
  }

  const SEPARATE_PATH_FLAGS := {"-idirafter", "-imacros", "-include", "-iquote", "-isysroot", "-isystem"}
  const PREFIX_MAP_FLAGS := ["-fdebug-prefix-map", "-ffile-prefix-map", "-fmacro-prefix-map"]

  lemma AdapterIsRegular(t: Tables)
    requires t.separatePath == SEPARATE_PATH_FLAGS && t.prefixMap == PREFIX_MAP_FLAGS
    ensures Regular(t)
  {
  }

  /** Two lines with the same arguments in their keys are spelled alike, group by group. */
  lemma EqualKeysSpellAlike(t: Tables, family: Family, args: seq<Arg>, others: seq<Arg>)
    requires Regular(t) && Parsed(RulesOf(t), family, args).Ok? && Parsed(RulesOf(t), family, others).Ok?
    requires Parsed(RulesOf(t), family, args).value.arguments == Parsed(RulesOf(t), family, others).value.arguments
    ensures ToldAll(t, KeptGroups(t, args, 0)).spellings == ToldAll(t, KeptGroups(t, others, 0)).spellings
  {
    KeyTellsTheLine(t, family, args);
    KeyTellsTheLine(t, family, others);
  }
}
