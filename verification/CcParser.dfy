/**
  The gcc-style driver command line: a token parser with value-taking flags
  that sets the caller's dependency-list flags apart and records where they
  stood, so that they can be left out when the driver is run.
 */
module CcParser {
  import opened Cache
  import Paths

  /** A command-line argument; `Raw` is one that is not UTF-8. */
  datatype Arg = Text(text: string) | Raw

  datatype Language = C | Cxx

  datatype Family = Gcc | Clang

  datatype Argument =
    | Plain(text: string)
    | PathArgument(flag: string, path: string)
    | PrefixMap(flag: string, from: string, to: string)
    | Source(path: string)

  datatype Reason =
    | StandardInput | ResponseFile | NonUtf8Argument | MissingValue | MultipleInputs | UnsupportedLanguage
    | CompilerQuery | NonObjectOutput | CallerDependencyFlags | SaveTemps | CoverageInstrumentation
    | ToolPassthrough | PrecompiledHeader | Plugin | LocalCpuTarget | SplitDebugOutput | UnknownFlag
    | NotACompile | MissingInput | MissingOutput

  type Outcome<T> = Result<T, Reason>

  /** The allowlists; only membership in them matters. */
  datatype Tables = Tables(
    query: set<string>, bare: set<string>, optimize: set<string>, debug: set<string>, separatePath: set<string>,
    passthrough: set<string>, assembler: set<string>, prefixMap: seq<string>, f: set<string>, m: set<string>)

  /** Everything the parser gathers apart from dependency flags. */
  datatype Core = Core(
    parsed: seq<Argument>, source: Option<string>, output: Option<string>, includeDirs: seq<string>,
    requiredInputs: seq<string>, sysroot: Option<string>, explicitLanguage: Option<Language>,
    preprocessedAssembly: bool, compiling: bool, preprocessing: bool)
  {
    function Push(a: Argument): Core { this.(parsed := parsed + [a]) }
  }

  datatype Target = Target(name: string, quoted: bool)

  /** What the caller's `-M` flags asked for. */
  datatype Request = Request(
    userHeadersOnly: Option<bool>, file: Option<string>, targets: seq<Target>, phonyTargets: bool,
    modifier: Option<string>, indices: seq<nat>)

  const EMPTY_CORE := Core([], None, None, [], [], None, None, false, false, false)
  const NO_REQUEST := Request(None, None, [], false, None, [])

  /** The caller's list goes where `-MF` says, or beside the object with extension `d`. */
  datatype DepfilePath = Named(path: string) | BesideOutput(output: string)

  /** The rule's targets: as given, the object as `-o` named it, or the object GCC derives from the source. */
  datatype DepfileTargets = Given(targets: seq<Target>) | OutputName(output: string) | ObjectOf(source: string)

  datatype CallerDepfile = CallerDepfile(
    path: DepfilePath, targets: DepfileTargets, userHeadersOnly: bool, phonyTargets: bool)

  datatype Invocation = Invocation(
    arguments: seq<Argument>, source: string, output: string, includeDirs: seq<string>, requiredInputs: seq<string>,
    language: Language, preprocessedAssembly: bool, preprocessingArguments: Option<seq<Arg>>, sysroot: Option<string>,
    callerDepfile: Option<CallerDepfile>, dependencyIndices: seq<nat>)

  // Text

  predicate Starts(s: string, prefix: string) { prefix <= s }

  function Rest(s: string, prefix: string): string
    requires Starts(s, prefix)
  {
    s[|prefix|..]
  }

  function SplitOn(s: string, c: char): (r: seq<string>)
    ensures |r| >= 1
  {
    if s == [] then [[]]
    else if s[0] == c then [[]] + SplitOn(s[1..], c)
    else
      var rest := SplitOn(s[1..], c);
      [[s[0]] + rest[0]] + rest[1..]
  }

  /** `split_once('=')`, with the whole text and nothing when there is no `=`. */
  function SplitOnce(s: string): (string, string)
  {
    if s == [] then ("", "")
    else if s[0] == '=' then ("", s[1..])
    else
      var (name, value) := SplitOnce(s[1..]);
      ([s[0]] + name, value)
  }

  // Deciding what a flag is

  datatype Kind =
    | Reject(reason: Reason)
    | Preprocess
    | Dependency(option: string)
    | Compile
    | Keep(text: string)
    | Output(inline: string)
    | Include(inline: string)
    | SeparatePath(flag: string)
    | LongInclude(path: string)
    | Prefix(flag: string, from: string, to: string)
    | Param
    | Sysroot(path: string)
    | Define(flag: string, inline: string)
    | ForceLanguage(inline: string)
    | TargetTriple
    | Arch

  function PrefixMapFlag(flags: seq<string>, value: string): (flag: Option<string>)
    ensures flag.Some? ==> Starts(value, flag.value + "=")
  {
    if flags == [] then None
    else if Starts(value, flags[0] + "=") then Some(flags[0])
    else PrefixMapFlag(flags[1..], value)
  }

  /** The order of the tests is the order of `parse_flag`. */
  function Classify(t: Tables, value: string): Kind
  {
    if value in t.query || Starts(value, "-print") then Reject(CompilerQuery)
    else if value == "-E" then Preprocess
    else if value == "-S" then Reject(NonObjectOutput)
    else if Starts(value, "-M") then Dependency(Rest(value, "-M"))
    else if Starts(value, "-save-temps") then Reject(SaveTemps)
    else if value == "--coverage" then Reject(CoverageInstrumentation)
    else if Starts(value, "-Wa,") && SupportedAssembler(t, Rest(value, "-Wa,")) then Keep(value)
    else if value in t.passthrough || Starts(value, "-Wp,") || Starts(value, "-Wa,") || Starts(value, "-Wl,")
    then Reject(ToolPassthrough)
    else if Starts(value, "-include-pch") || value == "-emit-pch" then Reject(PrecompiledHeader)
    else if value == "-c" then Compile
    else if value in t.bare || value in t.optimize || value in t.debug || Starts(value, "-std=") then Keep(value)
    else if Starts(value, "-o") then Output(Rest(value, "-o"))
    else if Starts(value, "-I") then Include(Rest(value, "-I"))
    else if value in t.separatePath then SeparatePath(value)
    else if Starts(value, "--include=") then LongInclude(Rest(value, "--include="))
    else ClassifyRest(t, value)
  }

  predicate SupportedAssembler(t: Tables, options: string)
  {
    options != [] && forall k :: 0 <= k < |SplitOn(options, ',')| ==> SplitOn(options, ',')[k] in t.assembler
  }

  function ClassifyRest(t: Tables, value: string): Kind
  {
    match PrefixMapFlag(t.prefixMap, value)
    case Some(flag) =>
      var (from, to) := SplitOnce(Rest(value, flag + "="));
      Prefix(flag, from, to)
    case None =>
      if value == "--param" then Param
      else if Starts(value, "--param=") then Keep(value)
      else if Starts(value, "--sysroot=") then Sysroot(Rest(value, "--sysroot="))
      else if Starts(value, "-D") then Define("-D", Rest(value, "-D"))
      else if Starts(value, "-U") then Define("-U", Rest(value, "-U"))
      else if Starts(value, "-x") then ForceLanguage(Rest(value, "-x"))
      else if Starts(value, "--target=") then Keep(value)
      else if value == "-target" then TargetTriple
      else if value == "-arch" then Arch
      else if Starts(value, "-f") then ClassifyF(t, value, Rest(value, "-f"))
      else if Starts(value, "-m") then ClassifyM(t, value, Rest(value, "-m"))
      else if Starts(value, "-g") then Reject(if Starts(value, "-gsplit-dwarf") then SplitDebugOutput else UnknownFlag)
      else if Starts(value, "-W") then Keep(value)
      else Reject(UnknownFlag)
  }

  function ClassifyF(t: Tables, value: string, option: string): Kind
  {
    if Starts(option, "plugin") || Starts(option, "pass-plugin") then Reject(Plugin)
    else if Starts(option, "profile-") || option == "test-coverage" then Reject(CoverageInstrumentation)
    else if SplitOnce(option).0 in t.f then Keep(value)
    else Reject(UnknownFlag)
  }

  function ClassifyM(t: Tables, value: string, option: string): Kind
  {
    var (name, selection) := SplitOnce(option);
    if option == "llvm" then Reject(ToolPassthrough)
    else if name in {"arch", "cpu", "tune"} && selection in {"native", "host"} then Reject(LocalCpuTarget)
    else if name in t.m then Keep(value)
    else Reject(UnknownFlag)
  }

  /**
    How single words are read: what a flag is, what language a source's name
    says it is in, and whether it is preprocessed assembly. Everything about the
    command line as a whole holds for any such reading.
   */
  datatype Rules = Rules(classify: string -> Kind, language: string -> Option<Language>, isAssembly: string -> bool)

  function LanguageByName(source: string): Option<Language>
  {
    if Paths.Extension(source) in {Some("c"), Some("S")} then Some(C)
    else if Paths.Extension(source) in {Some("cc"), Some("cpp"), Some("cxx"), Some("c++")} then Some(Cxx)
    else None
  }

  /** The reading the adapter uses, with given allowlists. */
  function RulesOf(t: Tables): Rules
  {
    Rules(value => Classify(t, value), LanguageByName, source => Paths.Extension(source) == Some("S"))
  }

  // One token

  /** The value a flag of this kind takes, and the part of it that is attached to the flag. */
  function Inline(kind: Kind): Option<string>
  {
    match kind
    case Output(inline) => Some(inline)
    case Include(inline) => Some(inline)
    case SeparatePath(_) => Some("")
    case Param => Some("")
    case Define(_, inline) => Some(inline)
    case ForceLanguage(inline) => Some(inline)
    case TargetTriple => Some("")
    case Arch => Some("")
    case _ => None
  }

  /** `take_value`: the attached text, or the next argument. The flag says how many arguments were used. */
  function TakeValue(inline: string, next: Option<Arg>): Outcome<(string, nat)>
  {
    if inline != [] then Ok((inline, 0))
    else
      match next
      case None => Err(MissingValue)
      case Some(Raw) => Err(NonUtf8Argument)
      case Some(Text(value)) => Ok((value, 1))
  }

  function LanguageNamed(name: string): Option<Language>
  {
    if name == "c" || name == "assembler-with-cpp" then Some(C) else if name == "c++" then Some(Cxx) else None
  }

  /** What an admitted flag adds, `value` being the value it took if it takes one. */
  function Apply(kind: Kind, core: Core, value: string): Outcome<Core>
  {
    match kind
    case Reject(reason) => Err(reason)
    case Preprocess => Ok(core.(preprocessing := true).Push(Plain("-E")))
    case Dependency(_) => Err(CallerDependencyFlags)
    case Compile => Ok(core.(compiling := true).Push(Plain("-c")))
    case Keep(text) => Ok(core.Push(Plain(text)))
    case Output(_) => Ok(core.(output := Some(value)).Push(PathArgument("-o", value)))
    case Include(_) => Ok(core.(includeDirs := core.includeDirs + [value]).Push(PathArgument("-I", value)))
    case SeparatePath(flag) =>
      var core := if flag in {"-isystem", "-iquote", "-idirafter"} then core.(includeDirs := core.includeDirs + [value])
                  else if flag == "-isysroot" then core.(sysroot := Some(value))
                  else core;
      Ok(core.Push(PathArgument(flag, value)))
    case LongInclude(path) => Ok(core.Push(PathArgument("-include", path)))
    case Prefix(flag, from, to) => Ok(core.Push(PrefixMap(flag, from, to)))
    case Param => Ok(core.Push(Plain("--param=" + value)))
    case Sysroot(path) => Ok(core.(sysroot := Some(path)).Push(PathArgument("--sysroot", path)))
    case Define(flag, _) => Ok(core.Push(Plain(flag + value)))
    case ForceLanguage(_) =>
      if LanguageNamed(value).None? then Err(UnsupportedLanguage)
      else Ok(core.(explicitLanguage := LanguageNamed(value),
                    preprocessedAssembly := core.preprocessedAssembly || value == "assembler-with-cpp")
                  .Push(Plain("-x" + value)))
    case TargetTriple => Ok(core.Push(Plain("--target=" + value)))
    case Arch => Ok(core.Push(Plain("-arch=" + value)))
  }

  function InputStep(rules: Rules, core: Core, value: string): Outcome<Core>
  {
    if core.source.Some? then Err(MultipleInputs)
    else if core.explicitLanguage.None? && rules.language(value).None? then Err(UnsupportedLanguage)
    else Ok(core.(source := Some(value)).Push(Source(value)))
  }

  /** One argument other than a dependency flag, and how many arguments after it are used up. */
  function CoreStep(rules: Rules, core: Core, value: string, next: Option<Arg>): Outcome<(Core, nat)>
  {
    if value == "-" then Err(StandardInput)
    else if Starts(value, "@") then Err(ResponseFile)
    else if !Starts(value, "-") then
      match InputStep(rules, core, value)
      case Ok(core) => Ok((core, 0))
      case Err(e) => Err(e)
    else FlagStep(rules.classify(value), core, next)
  }

  function FlagStep(kind: Kind, core: Core, next: Option<Arg>): Outcome<(Core, nat)>
  {
    match Inline(kind)
    case None =>
      (match Apply(kind, core, "")
       case Ok(core) => Ok((core, 0))
       case Err(e) => Err(e))
    case Some(inline) =>
      match TakeValue(inline, next)
      case Err(e) => Err(e)
      case Ok((value, used)) =>
        match Apply(kind, core, value)
        case Ok(core) => Ok((core, used))
        case Err(e) => Err(e)
  }

  predicate IsDependency(rules: Rules, value: string)
  {
    Starts(value, "-") && value != "-" && rules.classify(value).Dependency?
  }

  function Range(from: nat, to: nat): seq<nat>
    requires from <= to
  {
    seq(to - from, k requires 0 <= k < to - from => from + k)
  }

  /** `parse_dependency_flag` on the argument at `at`. */
  function RequestStep(request: Request, value: string, option: string, next: Option<Arg>, at: nat)
    : Outcome<(Request, nat)>
  {
    if option == "D" then Ok((request.(userHeadersOnly := Some(false), indices := request.indices + [at]), 0))
    else if option == "MD" then Ok((request.(userHeadersOnly := Some(true), indices := request.indices + [at]), 0))
    else if option == "P" then
      Ok((request.(phonyTargets := true, modifier := Some(value), indices := request.indices + [at]), 0))
    else if Starts(option, "F") then
      match TakeValue(option[1..], next)
      case Err(e) => Err(e)
      case Ok((file, used)) =>
        Ok((request.(file := Some(file), modifier := Some("-MF"),
                     indices := request.indices + Range(at, at + 1 + used)), used))
    else if Starts(option, "T") || Starts(option, "Q") then
      match TakeValue(option[1..], next)
      case Err(e) => Err(e)
      case Ok((name, used)) =>
        Ok((request.(targets := request.targets + [Target(name, Starts(option, "Q"))],
                     modifier := Some("-M" + option[..1]),
                     indices := request.indices + Range(at, at + 1 + used)), used))
    else Err(CallerDependencyFlags)
  }

  // The whole line

  function Next(args: seq<Arg>, i: nat): Option<Arg> { if i < |args| then Some(args[i]) else None }

  /** The parser between two tokens. */
  datatype Progress = Progress(core: Core, request: Request, index: nat)

  /**
    A reader of single tokens: whether one is a dependency flag and with what
    option, what such a flag asks for, and what any other token does, given the
    argument after it.
   */
  datatype Reader = Reader(
    dependency: string -> Option<string>,
    ask: (Request, string, string, Option<Arg>, nat) -> Outcome<(Request, nat)>,
    read: (Core, string, Option<Arg>) -> Outcome<(Core, nat)>)

  function DependencyOption(rules: Rules, value: string): Option<string>
  {
    if IsDependency(rules, value) then Some(rules.classify(value).option) else None
  }

  /** The adapter's reader. */
  function ReaderOf(rules: Rules): Reader
  {
    Reader(
      value => DependencyOption(rules, value), RequestStep,
      (core, value, next) => CoreStep(rules, core, value, next))
  }

  function Step(reader: Reader, args: seq<Arg>, p: Progress): (r: Outcome<Progress>)
    requires p.index < |args|
    ensures r.Ok? ==> p.index < r.value.index
  {
    match args[p.index]
    case Raw => Err(NonUtf8Argument)
    case Text(value) =>
      match reader.dependency(value)
      case Some(option) =>
        (match reader.ask(p.request, value, option, Next(args, p.index + 1), p.index)
         case Err(e) => Err(e)
         case Ok((request, used)) => Ok(Progress(p.core, request, p.index + 1 + used)))
      case None =>
        match reader.read(p.core, value, Next(args, p.index + 1))
        case Err(e) => Err(e)
        case Ok((core, used)) => Ok(Progress(core, p.request, p.index + 1 + used))
  }

  function Run(reader: Reader, args: seq<Arg>, p: Progress): Outcome<Progress>
    decreases |args| - p.index
  {
    if p.index >= |args| then Ok(p) else
    match Step(reader, args, p)
    case Err(e) => Err(e)
    case Ok(next) => Run(reader, args, next)
  }

  function LanguageOf(rules: Rules, core: Core, source: string): Option<Language>
  {
    if core.explicitLanguage.Some? then core.explicitLanguage else rules.language(source)
  }

  /** Whether a path is `-`, which means the standard output. */
  predicate IsDash(path: string) { Paths.Components(path) == [Paths.Name("-")] }

  function Depfile(core: Core, request: Request, family: Family): Outcome<Option<CallerDepfile>>
    requires core.source.Some? && core.output.Some?
  {
    match request.userHeadersOnly
    case None => if request.modifier.Some? then Err(CallerDependencyFlags) else Ok(None)
    case Some(only) =>
      var path := if request.file.Some? then Named(request.file.value) else BesideOutput(core.output.value);
      if request.targets != [] then Ok(Some(CallerDepfile(path, Given(request.targets), only, request.phonyTargets)))
      else if core.preprocessing && family == Gcc then
        if Paths.FileName(core.source.value).None? then Err(MissingInput)
        else Ok(Some(CallerDepfile(path, ObjectOf(core.source.value), only, request.phonyTargets)))
      else Ok(Some(CallerDepfile(path, OutputName(core.output.value), only, request.phonyTargets)))
  }

  /** The checks after the last argument. */
  function Conclude(rules: Rules, core: Core, request: Request, family: Family, args: seq<Arg>): Outcome<Invocation>
  {
    if !core.compiling && !core.preprocessing then Err(NotACompile)
    else if core.source.None? then Err(MissingInput)
    else if core.output.None? then Err(MissingOutput)
    else if core.preprocessing && IsDash(core.output.value) then Err(NonObjectOutput)
    else if core.preprocessing && request.userHeadersOnly.Some? && request.file.None? then Err(CallerDependencyFlags)
    else if core.preprocessing && request.file.Some? && IsDash(request.file.value) then Err(CallerDependencyFlags)
    else
      match LanguageOf(rules, core, core.source.value)
      case None => Err(UnsupportedLanguage)
      case Some(language) =>
        match Depfile(core, request, family)
        case Err(e) => Err(e)
        case Ok(depfile) =>
          Ok(Invocation(
            core.parsed, core.source.value, core.output.value, core.includeDirs,
            core.requiredInputs + [core.source.value], language,
            core.preprocessedAssembly
              || (core.explicitLanguage.None? && rules.isAssembly(core.source.value)),
            if core.preprocessing then Some(args) else None,
            core.sysroot, depfile, request.indices))
  }

  function Parsed(rules: Rules, family: Family, args: seq<Arg>): Outcome<Invocation>
  {
    match Run(ReaderOf(rules), args, Progress(EMPTY_CORE, NO_REQUEST, 0))
    case Err(e) => Err(e)
    case Ok(p) => Conclude(rules, p.core, p.request, family, args)
  }

  /** The arguments from `i` on whose positions are not listed. */
  function Without(args: seq<Arg>, indices: seq<nat>, i: nat): seq<Arg>
    decreases |args| - i
  {
    if i >= |args| then [] else (if i in indices then [] else [args[i]]) + Without(args, indices, i + 1)
  }

  /** `compiler_arguments`: the command line less the caller's dependency-list flags. */
  function CompilerArguments(invocation: Invocation, args: seq<Arg>): seq<Arg>
  {
    Without(args, invocation.dependencyIndices, 0)
  }

  /** The parser as the adapter runs it: a position in the command line and what was gathered so far. */
  class Parser {
    const rules: Rules
    const family: Family
    const arguments: seq<Arg>
    var index: nat
    var parsed: seq<Argument>
    var source: Option<string>
    var output: Option<string>
    var includeDirs: seq<string>
    var requiredInputs: seq<string>
    var sysroot: Option<string>
    var explicitLanguage: Option<Language>
    var preprocessedAssembly: bool
    var compiling: bool
    var preprocessing: bool
    var request: Request

    ghost function Gathered(): Core
      reads this
    {
      Core(parsed, source, output, includeDirs, requiredInputs, sysroot, explicitLanguage, preprocessedAssembly,
           compiling, preprocessing)
    }

    ghost function State(): Progress
      reads this
    {
      Progress(Gathered(), request, index)
    }

    constructor (rules: Rules, family: Family, arguments: seq<Arg>)
      ensures this.rules == rules && this.family == family && this.arguments == arguments
      ensures State() == Progress(EMPTY_CORE, NO_REQUEST, 0)
    {
      this.rules, this.family, this.arguments, index := rules, family, arguments, 0;
      parsed, source, output, includeDirs, requiredInputs := [], None, None, [], [];
      sysroot, explicitLanguage, preprocessedAssembly := None, None, false;
      compiling, preprocessing, request := false, false, NO_REQUEST;
    }

    /** `take_value`: consumes the next argument when nothing is attached to the flag. */
    method TakeArgument(inline: string) returns (r: Outcome<string>)
      modifies this`index
      ensures match TakeValue(inline, Next(arguments, old(index)))
              case Ok((value, used)) => r == Ok(value) && index == old(index) + used
              case Err(e) => r == Err(e)
    {
      if inline != [] {
        return Ok(inline);
      }
      if index >= |arguments| {
        return Err(MissingValue);
      }
      match arguments[index] {
        case Raw => return Err(NonUtf8Argument);
        case Text(value) =>
          index := index + 1;
          return Ok(value);
      }
    }

    /** `parse_dependency_flag`; the flag itself is the argument before `index`. */
    method ParseDependencyFlag(value: string, option: string) returns (r: Outcome<()>)
      requires index > 0
      modifies this`index, this`request
      ensures match RequestStep(old(request), value, option, Next(arguments, old(index)), old(index) - 1)
              case Ok((after, used)) => r.Ok? && request == after && index == old(index) + used
              case Err(e) => r == Err(e)
    {
      var start := index - 1;
      if option == "D" {
        request := request.(userHeadersOnly := Some(false));
      } else if option == "MD" {
        request := request.(userHeadersOnly := Some(true));
      } else if option == "P" {
        request := request.(phonyTargets := true, modifier := Some(value));
      } else if Starts(option, "F") {
        var file := TakeArgument(option[1..]);
        if file.Err? {
          return Err(file.error);
        }
        request := request.(file := Some(file.value), modifier := Some("-MF"));
      } else if Starts(option, "T") || Starts(option, "Q") {
        var name := TakeArgument(option[1..]);
        if name.Err? {
          return Err(name.error);
        }
        request := request.(targets := request.targets + [Target(name.value, Starts(option, "Q"))],
                            modifier := Some("-M" + option[..1]));
      } else {
        return Err(CallerDependencyFlags);
      }
      assert Range(start, start + 1) == [start];
      request := request.(indices := request.indices + Range(start, index));
      return Ok(());
    }

    method ParseInput(value: string) returns (r: Outcome<()>)
      modifies this`source, this`parsed
      ensures match InputStep(rules, old(Gathered()), value)
              case Ok(core) => r.Ok? && Gathered() == core
              case Err(e) => r == Err(e)
    {
      if source.Some? {
        return Err(MultipleInputs);
      }
      if explicitLanguage.None? && rules.language(value).None? {
        return Err(UnsupportedLanguage);
      }
      source := Some(value);
      parsed := parsed + [Source(value)];
      return Ok(());
    }

    /** What `parse_flag` does with a flag that names a path. */
    method AdmitPath(kind: Kind, value: string)
      requires kind.Output? || kind.Include? || kind.SeparatePath? || kind.LongInclude? || kind.Sysroot? || kind.Prefix?
      modifies this`parsed, this`output, this`includeDirs, this`sysroot
      ensures Apply(kind, old(Gathered()), value) == Ok(Gathered())
    {
      match kind {
        case Output(_) =>
          output := Some(value);
          parsed := parsed + [PathArgument("-o", value)];
        case Include(_) =>
          includeDirs := includeDirs + [value];
          parsed := parsed + [PathArgument("-I", value)];
        case SeparatePath(flag) =>
          if flag in {"-isystem", "-iquote", "-idirafter"} {
            includeDirs := includeDirs + [value];
          } else if flag == "-isysroot" {
            sysroot := Some(value);
          }
          parsed := parsed + [PathArgument(flag, value)];
        case LongInclude(path) =>
          parsed := parsed + [PathArgument("-include", path)];
        case Sysroot(path) =>
          sysroot := Some(path);
          parsed := parsed + [PathArgument("--sysroot", path)];
        case Prefix(flag, from, to) =>
          parsed := parsed + [PrefixMap(flag, from, to)];
      }
    }

    /** What `parse_flag` does once it knows the flag and has its value. */
    method Admit(kind: Kind, value: string) returns (r: Outcome<()>)
      modifies this`parsed, this`output, this`includeDirs, this`sysroot, this`explicitLanguage,
               this`preprocessedAssembly, this`compiling, this`preprocessing
      ensures match Apply(kind, old(Gathered()), value)
              case Ok(core) => r.Ok? && Gathered() == core
              case Err(e) => r == Err(e)
    {
      match kind {
        case Reject(reason) => return Err(reason);
        case Dependency(_) => return Err(CallerDependencyFlags);
        case Preprocess =>
          preprocessing := true;
          parsed := parsed + [Plain("-E")];
        case Compile =>
          compiling := true;
          parsed := parsed + [Plain("-c")];
        case Keep(text) =>
          parsed := parsed + [Plain(text)];
        case Param =>
          parsed := parsed + [Plain("--param=" + value)];
        case Define(flag, _) =>
          parsed := parsed + [Plain(flag + value)];
        case ForceLanguage(_) =>
          if LanguageNamed(value).None? {
            return Err(UnsupportedLanguage);
          }
          explicitLanguage := LanguageNamed(value);
          if value == "assembler-with-cpp" {
            preprocessedAssembly := true;
          }
          parsed := parsed + [Plain("-x" + value)];
        case TargetTriple =>
          parsed := parsed + [Plain("--target=" + value)];
        case Arch =>
          parsed := parsed + [Plain("-arch=" + value)];
        case _ =>
          AdmitPath(kind, value);
      }
      return Ok(());
    }

    /** `parse_flag`, dependency flags aside. */
    method ParseFlag(kind: Kind) returns (r: Outcome<()>)
      modifies this`index, this`parsed, this`output, this`includeDirs, this`sysroot, this`explicitLanguage,
               this`preprocessedAssembly, this`compiling, this`preprocessing
      ensures match FlagStep(kind, old(Gathered()), Next(arguments, old(index)))
              case Ok((core, used)) => r.Ok? && Gathered() == core && index == old(index) + used
              case Err(e) => r == Err(e)
    {
      var value := "";
      if Inline(kind).Some? {
        var taken := TakeArgument(Inline(kind).value);
        if taken.Err? {
          return Err(taken.error);
        }
        value := taken.value;
      }
      r := Admit(kind, value);
    }

    /** One round of the loop in `parse`. */
    method ParseArgument() returns (r: Outcome<()>)
      requires index < |arguments|
      modifies this
      ensures match Step(ReaderOf(rules), arguments, old(State()))
              case Ok(next) => r.Ok? && State() == next
              case Err(e) => r == Err(e)
    {
      if arguments[index].Raw? {
        return Err(NonUtf8Argument);
      }
      var value := arguments[index].text;
      index := index + 1;
      if value == "-" {
        return Err(StandardInput);
      }
      if Starts(value, "@") {
        assert value[0] == '@' && "-"[0] == '-';
        return Err(ResponseFile);
      }
      if !Starts(value, "-") {
        r := ParseInput(value);
      } else if rules.classify(value).Dependency? {
        r := ParseDependencyFlag(value, rules.classify(value).option);
      } else {
        r := ParseFlag(rules.classify(value));
      }
    }

    /** The loop of `parse`. */
    method ParseArguments() returns (r: Outcome<()>)
      modifies this
      ensures match Run(ReaderOf(rules), arguments, old(State()))
              case Ok(end) => r.Ok? && State() == end
              case Err(e) => r == Err(e)
    {
      ghost var reader := ReaderOf(rules);
      while index < |arguments|
        invariant Run(reader, arguments, old(State())) == Run(reader, arguments, State())
        decreases |arguments| - index
      {
        r := ParseArgument();
        if r.Err? {
          return;
        }
      }
      return Ok(());
    }

    /** `Parser::parse`. */
    method Parse() returns (r: Outcome<Invocation>)
      requires State() == Progress(EMPTY_CORE, NO_REQUEST, 0)
      modifies this
      ensures r == Parsed(rules, family, arguments)
    {
      var read := ParseArguments();
      if read.Err? {
        return Err(read.error);
      }
      var core := Core(parsed, source, output, includeDirs, requiredInputs, sysroot, explicitLanguage,
                       preprocessedAssembly, compiling, preprocessing);
      return Conclude(rules, core, request, family, arguments);
    }
  }
}
