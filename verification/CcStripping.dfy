/**
  Leaving out the caller's dependency-list flags does not change what is
  compiled: the stripped command line parses to the same compile, and so does
  the one the driver is run with, which asks for the shim's own list.
 */
module CcStripping {
  import opened Cache
  import opened CcParser
  import Paths

  /**
    A reader that uses at most one argument more and does not look at it
    otherwise, and whose dependency flags record just the positions they use.
   */
  ghost predicate Local(reader: Reader)
  {
    && (forall core, value, next, other :: LocalAt(reader, core, value, next, other))
    && (forall request, value, option, next, at :: RecordsAt(reader, request, value, option, next, at))
  }

  ghost predicate LocalAt(reader: Reader, core: Core, value: string, next: Option<Arg>, other: Option<Arg>)
  {
    reader.read(core, value, next).Ok? ==>
      match reader.read(core, value, next).value.1
      case 0 => reader.read(core, value, other) == reader.read(core, value, next)
      case 1 => next.Some?
      case _ => false
  }

  ghost predicate RecordsAt(reader: Reader, request: Request, value: string, option: string, next: Option<Arg>, at: nat)
  {
    reader.ask(request, value, option, next, at).Ok? ==>
      var (after, used) := reader.ask(request, value, option, next, at).value;
      (used == 0 || (used == 1 && next.Some?)) && after.indices == request.indices + Range(at, at + 1 + used)
  }

  lemma AdapterIsLocal(rules: Rules)
    ensures Local(ReaderOf(rules))
  {
    var reader := ReaderOf(rules);
    forall core, value, next, other ensures LocalAt(reader, core, value, next, other) {
      assert reader.read(core, value, next) == CoreStep(rules, core, value, next);
      assert reader.read(core, value, other) == CoreStep(rules, core, value, other);
    }
    forall request, value, option, next, at: nat ensures RecordsAt(reader, request, value, option, next, at) {
      assert reader.ask(request, value, option, next, at) == RequestStep(request, value, option, next, at);
      assert Range(at, at + 1) == [at];
    }
  }

  ghost predicate IsKept(reader: Reader, arg: Arg) { arg.Text? && reader.dependency(arg.text).None? }

  /** The arguments a successful run keeps: whole groups of a flag and the value it took. */
  ghost function Kept(reader: Reader, args: seq<Arg>, p: Progress): seq<Arg>
    requires Run(reader, args, p).Ok? && p.index <= |args| && Local(reader)
    decreases |args| - p.index
  {
    if p.index >= |args| then [] else
    var next := Step(reader, args, p).value;
    StepStaysInside(reader, args, p);
    (if IsKept(reader, args[p.index]) then args[p.index..next.index] else []) + Kept(reader, args, next)
  }

  lemma StepStaysInside(reader: Reader, args: seq<Arg>, p: Progress)
    requires p.index < |args| && Step(reader, args, p).Ok? && Local(reader)
    ensures p.index < Step(reader, args, p).value.index <= |args|
  {
    var value := args[p.index].text;
    if IsKept(reader, args[p.index]) {
      assert LocalAt(reader, p.core, value, Next(args, p.index + 1), None);
    } else {
      assert RecordsAt(reader, p.request, value, reader.dependency(value).value, Next(args, p.index + 1), p.index);
    }
  }

  /** One kept group does on any other line what it did on this one. */
  lemma GroupRuns(reader: Reader, args: seq<Arg>, p: Progress, next: Progress, line: seq<Arg>, at: nat)
    requires Local(reader) && p.index < |args| && Step(reader, args, p) == Ok(next)
    requires IsKept(reader, args[p.index]) && next.index <= |args|
    requires at + next.index - p.index <= |line| && line[at..at + next.index - p.index] == args[p.index..next.index]
    ensures Step(reader, line, Progress(p.core, NO_REQUEST, at))
         == Ok(Progress(next.core, NO_REQUEST, at + next.index - p.index))
  {
    var value, size := args[p.index].text, next.index - p.index;
    assert LocalAt(reader, p.core, value, Next(args, p.index + 1), Next(line, at + 1));
    assert line[at] == line[at..at + size][0] == args[p.index..next.index][0] == args[p.index];
    if size == 2 {
      assert line[at + 1] == line[at..at + size][1] == args[p.index..next.index][1] == args[p.index + 1];
    }
  }

  lemma RunOne(reader: Reader, line: seq<Arg>, p: Progress, next: Progress)
    requires p.index < |line| && Step(reader, line, p) == Ok(next)
    ensures Run(reader, line, p) == Run(reader, line, next)
  {
  }

  lemma SplitSlice(line: seq<Arg>, at: nat, group: seq<Arg>, rest: seq<Arg>)
    requires at + |group + rest| <= |line| && line[at..at + |group + rest|] == group + rest
    ensures line[at..at + |group|] == group && line[at + |group|..at + |group| + |rest|] == rest
  {
    var slice := line[at..at + |group + rest|];
    assert slice[..|group|] == group && slice[|group|..] == rest;
    assert line[at..at + |group|] == slice[..|group|];
    assert line[at + |group|..at + |group| + |rest|] == slice[|group|..];
  }

  lemma KeptUnfolds(reader: Reader, args: seq<Arg>, p: Progress, next: Progress)
    requires p.index < |args| && Run(reader, args, p).Ok? && Local(reader) && Step(reader, args, p) == Ok(next)
    ensures p.index < next.index <= |args| && Run(reader, args, next) == Run(reader, args, p)
    ensures Kept(reader, args, p)
            == (if IsKept(reader, args[p.index]) then args[p.index..next.index] else []) + Kept(reader, args, next)
    ensures !IsKept(reader, args[p.index]) ==> next.core == p.core
  {
    StepStaysInside(reader, args, p);
  }

  /** One step of a successful run, seen from a line that holds the kept arguments. */
  lemma KeptStep(reader: Reader, args: seq<Arg>, p: Progress, line: seq<Arg>, at: nat)
    returns (next: Progress, group: seq<Arg>)
    requires p.index < |args| && Run(reader, args, p).Ok? && Local(reader)
    requires at + |Kept(reader, args, p)| <= |line|
    requires line[at..at + |Kept(reader, args, p)|] == Kept(reader, args, p)
    ensures p.index < next.index <= |args| && Run(reader, args, next) == Run(reader, args, p)
    ensures Kept(reader, args, p) == group + Kept(reader, args, next)
    ensures Run(reader, line, Progress(p.core, NO_REQUEST, at))
         == Run(reader, line, Progress(next.core, NO_REQUEST, at + |group|))
  {
    next := Step(reader, args, p).value;
    KeptUnfolds(reader, args, p, next);
    if IsKept(reader, args[p.index]) {
      group := args[p.index..next.index];
      SplitSlice(line, at, group, Kept(reader, args, next));
      GroupRuns(reader, args, p, next, line, at);
      RunOne(reader, line, Progress(p.core, NO_REQUEST, at), Progress(next.core, NO_REQUEST, at + |group|));
    } else {
      group := [];
    }
  }

  /** The kept arguments, wherever they stand in a line, rebuild everything but the dependency request. */
  lemma {:induction false} KeptRuns(reader: Reader, args: seq<Arg>, p: Progress, end: Progress, line: seq<Arg>, at: nat)
    requires p.index <= |args| && Run(reader, args, p) == Ok(end) && Local(reader)
    requires at + |Kept(reader, args, p)| <= |line|
    requires line[at..at + |Kept(reader, args, p)|] == Kept(reader, args, p)
    ensures Run(reader, line, Progress(p.core, NO_REQUEST, at))
            == Run(reader, line, Progress(end.core, NO_REQUEST, at + |Kept(reader, args, p)|))
    decreases |args| - p.index
  {
    if p.index < |args| {
      var next, group := KeptStep(reader, args, p, line, at);
      SplitSlice(line, at, group, Kept(reader, args, next));
      KeptRuns(reader, args, next, end, line, at + |group|);
    }
  }

  // The recorded positions

  /** What one step does to the recorded positions. */
  lemma StepIndices(reader: Reader, args: seq<Arg>, p: Progress)
    requires Local(reader) && p.index < |args| && Step(reader, args, p).Ok?
    ensures var next := Step(reader, args, p).value;
            if IsKept(reader, args[p.index]) then next.request == p.request
            else next.request.indices == p.request.indices + Range(p.index, next.index)
  {
    var value := args[p.index].text;
    if !IsKept(reader, args[p.index]) {
      assert RecordsAt(reader, p.request, value, reader.dependency(value).value, Next(args, p.index + 1), p.index);
    }
  }

  /** From a given point on, the request only gains positions from that point on. */
  lemma {:induction false} IndicesGrow(reader: Reader, args: seq<Arg>, p: Progress, end: Progress, j: nat)
    requires Run(reader, args, p) == Ok(end) && Local(reader)
    ensures j in p.request.indices ==> j in end.request.indices
    ensures j in end.request.indices && j !in p.request.indices ==> p.index <= j
    decreases |args| - p.index
  {
    if p.index < |args| {
      var next := Step(reader, args, p).value;
      IndicesGrow(reader, args, next, end, j);
      StepIndices(reader, args, p);
    }
  }

  /** Positions recorded so far all lie behind the parser. */
  ghost predicate Behind(p: Progress) { forall j :: j in p.request.indices ==> j < p.index }

  lemma {:induction false} WithoutRange(args: seq<Arg>, indices: seq<nat>, from: nat, to: nat)
    requires from <= to <= |args|
    ensures (forall j :: from <= j < to ==> j in indices) ==> Without(args, indices, from) == Without(args, indices, to)
    ensures (forall j :: from <= j < to ==> j !in indices) ==>
              Without(args, indices, from) == args[from..to] + Without(args, indices, to)
    decreases |args| - from
  {
    if from < to {
      WithoutRange(args, indices, from + 1, to);
      assert args[from..to] == [args[from]] + args[from + 1..to];
    }
  }

  /** Leaving out the recorded positions leaves exactly the kept groups. */
  lemma {:induction false} WithoutIsKept(reader: Reader, args: seq<Arg>, p: Progress, end: Progress)
    requires p.index <= |args| && Run(reader, args, p) == Ok(end) && Local(reader) && Behind(p)
    ensures Without(args, end.request.indices, p.index) == Kept(reader, args, p)
    decreases |args| - p.index
  {
    if p.index < |args| {
      var next := Step(reader, args, p).value;
      var all := end.request.indices;
      StepStaysInside(reader, args, p);
      StepIndices(reader, args, p);
      WithoutIsKept(reader, args, next, end);
      WithoutRange(args, all, p.index, next.index);
      if IsKept(reader, args[p.index]) {
        forall j | p.index <= j < next.index ensures j !in all {
          IndicesGrow(reader, args, next, end, j);
        }
      } else {
        forall j | p.index <= j < next.index ensures j in all {
          assert Range(p.index, next.index)[j - p.index] == j;
          IndicesGrow(reader, args, next, end, j);
        }
      }
    }
  }

  // The theorems

  /** Two invocations compile the same thing: same key arguments, inputs, output and language. */
  predicate SameCompile(a: Invocation, b: Invocation)
  {
    && a.arguments == b.arguments && a.source == b.source && a.output == b.output
    && a.includeDirs == b.includeDirs && a.requiredInputs == b.requiredInputs && a.language == b.language
    && a.preprocessedAssembly == b.preprocessedAssembly && a.sysroot == b.sysroot
    && a.preprocessingArguments.Some? == b.preprocessingArguments.Some?
  }

  const START := Progress(EMPTY_CORE, NO_REQUEST, 0)

  lemma RunEnds(reader: Reader, line: seq<Arg>, p: Progress)
    requires p.index == |line|
    ensures Run(reader, line, p) == Ok(p)
  {
  }

  /** Running the stripped line, and anything after it, comes to where the whole line did, less its request. */
  lemma StrippedRun(reader: Reader, args: seq<Arg>, end: Progress, extra: seq<Arg>)
    requires Local(reader) && Run(reader, args, START) == Ok(end)
    ensures var line := Without(args, end.request.indices, 0);
            Run(reader, line + extra, START) == Run(reader, line + extra, Progress(end.core, NO_REQUEST, |line|))
  {
    var kept := Kept(reader, args, START);
    WithoutIsKept(reader, args, START, end);
    assert (kept + extra)[0..|kept|] == kept;
    KeptRuns(reader, args, START, end, kept + extra, 0);
  }

  lemma ParsedRun(rules: Rules, family: Family, args: seq<Arg>) returns (end: Progress)
    requires Parsed(rules, family, args).Ok?
    ensures Run(ReaderOf(rules), args, START) == Ok(end)
    ensures Conclude(rules, end.core, end.request, family, args) == Parsed(rules, family, args)
    ensures Parsed(rules, family, args).value.dependencyIndices == end.request.indices
  {
    end := Run(ReaderOf(rules), args, START).value;
  }

  lemma ParsedFrom(rules: Rules, family: Family, args: seq<Arg>, end: Progress)
    requires Run(ReaderOf(rules), args, START) == Ok(end)
    ensures Parsed(rules, family, args) == Conclude(rules, end.core, end.request, family, args)
  {
  }

  /** With nothing asked for, the final checks admit the same compile. */
  lemma ConcludeWithoutRequest(
    rules: Rules, core: Core, request: Request, family: Family, args: seq<Arg>, line: seq<Arg>)
    requires Conclude(rules, core, request, family, args).Ok?
    ensures var bare := Conclude(rules, core, NO_REQUEST, family, line);
            && bare.Ok? && SameCompile(Conclude(rules, core, request, family, args).value, bare.value)
            && bare.value.callerDepfile == None && bare.value.dependencyIndices == []
  {
  }

  /** Stripping the dependency flags of an admitted command line leaves an admitted one for the same compile. */
  lemma StrippingPreservesMeaning(rules: Rules, family: Family, args: seq<Arg>)
    requires Parsed(rules, family, args).Ok?
    ensures var invocation := Parsed(rules, family, args).value;
            var stripped := Parsed(rules, family, CompilerArguments(invocation, args));
            && stripped.Ok? && SameCompile(invocation, stripped.value)
            && stripped.value.callerDepfile == None && stripped.value.dependencyIndices == []
  {
    var end := ParsedRun(rules, family, args);
    var line := CompilerArguments(Parsed(rules, family, args).value, args);
    AdapterIsLocal(rules);
    StrippedRun(ReaderOf(rules), args, end, []);
    assert line + [] == line;
    RunEnds(ReaderOf(rules), line, Progress(end.core, NO_REQUEST, |line|));
    ParsedFrom(rules, family, line, Progress(end.core, NO_REQUEST, |line|));
    ConcludeWithoutRequest(rules, end.core, end.request, family, args, line);
  }

  /** Nothing is left to strip the second time. */
  lemma StrippingIsIdempotent(rules: Rules, family: Family, args: seq<Arg>)
    requires Parsed(rules, family, args).Ok?
    ensures var line := CompilerArguments(Parsed(rules, family, args).value, args);
            Parsed(rules, family, line).Ok? && CompilerArguments(Parsed(rules, family, line).value, line) == line
  {
    var line := CompilerArguments(Parsed(rules, family, args).value, args);
    StrippingPreservesMeaning(rules, family, args);
    WithoutRange(line, [], 0, |line|);
    assert line[0..|line|] == line;
  }

  /** `dependency_arguments`: what the shim appends to ask for its own list. */
  function DependencyArguments(depfile: string): seq<Arg> { [Text("-MD"), Text("-MF"), Text(depfile)] }

  ghost predicate KnowsDependencyFlags(reader: Reader)
  {
    reader.dependency("-MD") == Some("D") && reader.dependency("-MF") == Some("F") && reader.ask == RequestStep
  }

  lemma AdapterKnowsDependencyFlags(t: Tables)
    requires "-MD" !in t.query && "-MF" !in t.query
    ensures KnowsDependencyFlags(ReaderOf(RulesOf(t)))
  {
    MakesDependency(t, "-MD");
    MakesDependency(t, "-MF");
    assert Rest("-MD", "-M") == "D" && Rest("-MF", "-M") == "F";
  }

  lemma MakesDependency(t: Tables, value: string)
    requires value !in t.query && Starts(value, "-M")
    ensures Classify(t, value) == Dependency(Rest(value, "-M")) && IsDependency(RulesOf(t), value)
  {
    assert value[0] == "-M"[0] == '-' && value[1] == "-M"[1] == 'M';
    assert "-print"[1] == 'p' && "-E"[1] == 'E' && "-S"[1] == 'S';
  }

  lemma OwnRequest(reader: Reader, line: seq<Arg>, core: Core, depfile: string) returns (end: Progress)
    requires KnowsDependencyFlags(reader)
    ensures Run(reader, line + DependencyArguments(depfile), Progress(core, NO_REQUEST, |line|)) == Ok(end)
    ensures end.core == core && end.request.userHeadersOnly == Some(false) && end.request.file == Some(depfile)
    ensures end.request.targets == [] && !end.request.phonyTargets
  {
    var whole, n := line + DependencyArguments(depfile), |line|;
    assert whole[n] == Text("-MD") && whole[n + 1] == Text("-MF") && whole[n + 2] == Text(depfile);
    var start := Progress(core, NO_REQUEST, n);
    var asked := Progress(core, NO_REQUEST.(userHeadersOnly := Some(false), indices := [n]), n + 1);
    assert [] + [n] == [n];
    assert Step(reader, whole, start) == Ok(asked);
    RunOne(reader, whole, start, asked);
    end := Progress(core, asked.request.(file := Some(depfile), modifier := Some("-MF"),
                                         indices := [n] + Range(n + 1, n + 3)), n + 3);
    assert "F"[1..] == "";
    assert Step(reader, whole, asked) == Ok(end);
    RunOne(reader, whole, asked, end);
    RunEnds(reader, whole, end);
  }

  /**
    When the shim can ask for its own list: a preprocessing run cannot send it to
    the standard output, and GCC names its target after the source's file name.
   */
  predicate CanList(invocation: Invocation, family: Family, depfile: string)
  {
    invocation.preprocessingArguments.Some? ==>
      !IsDash(depfile) && (family == Gcc ==> Paths.FileName(invocation.source).Some?)
  }

  /** With only the shim's own list asked for, the final checks admit the same compile, if it can be asked for. */
  lemma ConcludeWithOwnRequest(
    rules: Rules, core: Core, request: Request, family: Family, args: seq<Arg>, own: Request, depfile: string,
    line: seq<Arg>)
    requires Conclude(rules, core, request, family, args).Ok?
    requires own.userHeadersOnly == Some(false) && own.file == Some(depfile) && own.targets == [] && !own.phonyTargets
    ensures var invocation := Conclude(rules, core, request, family, args).value;
            var driven := Conclude(rules, core, own, family, line);
            && (driven.Ok? <==> CanList(invocation, family, depfile))
            && (driven.Ok? ==> SameCompile(invocation, driven.value) && ListsInto(driven.value, depfile))
  {
  }

  lemma DrivenRun(reader: Reader, args: seq<Arg>, end: Progress, depfile: string) returns (own: Progress)
    requires Local(reader) && Run(reader, args, START) == Ok(end) && KnowsDependencyFlags(reader)
    ensures Run(reader, Without(args, end.request.indices, 0) + DependencyArguments(depfile), START) == Ok(own)
    ensures own.core == end.core && own.request.userHeadersOnly == Some(false) && own.request.file == Some(depfile)
    ensures own.request.targets == [] && !own.request.phonyTargets
  {
    StrippedRun(reader, args, end, DependencyArguments(depfile));
    own := OwnRequest(reader, Without(args, end.request.indices, 0), end.core, depfile);
  }

  /** The invocation writes one list, all headers included, to `depfile`. */
  predicate ListsInto(invocation: Invocation, depfile: string)
  {
    && invocation.callerDepfile.Some?
    && invocation.callerDepfile.value.path == Named(depfile)
    && !invocation.callerDepfile.value.userHeadersOnly
  }

  /**
    The driver's command line, stripped and with the shim's own list asked for,
    is admitted exactly when that list can be asked for; it is then the same
    compile, and the one list it writes is the shim's.
   */
  lemma DriverLinePreservesMeaning(rules: Rules, family: Family, args: seq<Arg>, depfile: string)
    requires Parsed(rules, family, args).Ok? && KnowsDependencyFlags(ReaderOf(rules))
    ensures var invocation := Parsed(rules, family, args).value;
            var driven := Parsed(rules, family, CompilerArguments(invocation, args) + DependencyArguments(depfile));
            && (driven.Ok? <==> CanList(invocation, family, depfile))
            && (driven.Ok? ==> SameCompile(invocation, driven.value) && ListsInto(driven.value, depfile))
  {
    var end := ParsedRun(rules, family, args);
    AdapterIsLocal(rules);
    var own := DrivenRun(ReaderOf(rules), args, end, depfile);
    var whole := CompilerArguments(Parsed(rules, family, args).value, args) + DependencyArguments(depfile);
    ParsedFrom(rules, family, whole, own);
    ConcludeWithOwnRequest(rules, end.core, end.request, family, args, own.request, depfile, whole);
  }
}
