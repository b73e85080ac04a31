/**
  Cache-key paths: a host path under a mapped root becomes a placeholder and a
  suffix, a system path stays verbatim, and a prediction turns a key back into
  a host path. The tree is alias-free, so resolving a normalised path is the
  identity.
 */
module PathKeys {
  import opened Cache
  import opened Paths

  datatype Mapping = Mapping(root: HostPath, placeholder: string)

  datatype Reason =
    | UnmappedAbsolutePath
    | RelativeWorkingDirectory
    | RelativePathMapping
    | InvalidPathPlaceholder
    | InvalidPredictedInput

  type Outcome<T> = Result<T, Reason>

  // Ordering

  function Depth(m: Mapping): nat { |m.root| }

  function Insert(m: Mapping, sorted: seq<Mapping>): seq<Mapping>
  {
    if sorted == [] || Depth(sorted[0]) <= Depth(m) then [m] + sorted
    else [sorted[0]] + Insert(m, sorted[1..])
  }

  /** `PathMapping::ordered`: a stable sort, most components first, of the roots as given. */
  function Ordered(ms: seq<Mapping>): seq<Mapping>
  {
    if ms == [] then [] else Insert(ms[0], Ordered(ms[1..]))
  }

  predicate ByDepth(ms: seq<Mapping>) { forall i, j :: 0 <= i < j < |ms| ==> Depth(ms[i]) >= Depth(ms[j]) }

  lemma {:induction false} InsertKeeps(m: Mapping, sorted: seq<Mapping>)
    ensures multiset(Insert(m, sorted)) == multiset{m} + multiset(sorted)
  {
    if sorted != [] && Depth(sorted[0]) > Depth(m) {
      InsertKeeps(m, sorted[1..]);
      assert sorted == [sorted[0]] + sorted[1..];
    }
  }

  lemma {:induction false} InsertIsBounded(m: Mapping, sorted: seq<Mapping>, depth: nat)
    requires Depth(m) <= depth && forall j :: 0 <= j < |sorted| ==> Depth(sorted[j]) <= depth
    ensures forall j :: 0 <= j < |Insert(m, sorted)| ==> Depth(Insert(m, sorted)[j]) <= depth
  {
    if sorted != [] && Depth(sorted[0]) > Depth(m) {
      InsertIsBounded(m, sorted[1..], depth);
    }
  }

  lemma {:induction false} InsertSorts(m: Mapping, sorted: seq<Mapping>)
    requires ByDepth(sorted)
    ensures ByDepth(Insert(m, sorted))
  {
    if sorted != [] && Depth(sorted[0]) > Depth(m) {
      InsertSorts(m, sorted[1..]);
      InsertIsBounded(m, sorted[1..], Depth(sorted[0]));
    }
  }

  lemma {:induction false} OrderedSorts(ms: seq<Mapping>)
    ensures ByDepth(Ordered(ms)) && multiset(Ordered(ms)) == multiset(ms)
  {
    if ms != [] {
      OrderedSorts(ms[1..]);
      InsertSorts(ms[0], Ordered(ms[1..]));
      InsertKeeps(ms[0], Ordered(ms[1..]));
      assert ms == [ms[0]] + ms[1..];
    }
  }

  /** `resolve_path_mappings` on an alias-free tree. */
  function Resolved(ms: seq<Mapping>): seq<Mapping>
  {
    seq(|ms|, k requires 0 <= k < |ms| => ms[k].(root := Normalized(ms[k].root)))
  }

  // Validation

  predicate PlaceholderChar(c: char) { '0' <= c <= '9' || 'A' <= c <= 'Z' || 'a' <= c <= 'z' || c == '_' }

  predicate GoodPlaceholder(s: string) { s != "" && forall k :: 0 <= k < |s| ==> PlaceholderChar(s[k]) }

  /** Mapping `k` is well formed and clashes with none before it. */
  predicate Distinct(ms: seq<Mapping>, k: nat)
    requires k < |ms|
  {
    && IsAbsolute(ms[k].root) && GoodPlaceholder(ms[k].placeholder)
    && forall j :: 0 <= j < k ==>
         Normalized(ms[j].root) != Normalized(ms[k].root) && ms[j].placeholder != ms[k].placeholder
  }

  predicate Validated(ms: seq<Mapping>) { forall k :: 0 <= k < |ms| ==> Distinct(ms, k) }

  /** `validate_mappings`. */
  method ValidateMappings(ms: seq<Mapping>, workingDir: HostPath) returns (r: Outcome<()>)
    ensures r.Ok? <==> IsAbsolute(workingDir) && Validated(ms)
  {
    if !IsAbsolute(workingDir) {
      return Err(RelativeWorkingDirectory);
    }
    var roots: set<HostPath>, placeholders: set<string> := {}, {};
    for k := 0 to |ms|
      invariant forall j :: 0 <= j < k ==> Distinct(ms, j)
      invariant roots == set j | 0 <= j < k :: Normalized(ms[j].root)
      invariant placeholders == set j | 0 <= j < k :: ms[j].placeholder
    {
      if !IsAbsolute(ms[k].root) {
        assert !Distinct(ms, k);
        return Err(RelativePathMapping);
      }
      var root := NormalizeComponents(ms[k].root);
      if !GoodPlaceholder(ms[k].placeholder) || root in roots || ms[k].placeholder in placeholders {
        assert !Distinct(ms, k);
        return Err(InvalidPathPlaceholder);
      }
      roots := roots + {root};
      placeholders := placeholders + {ms[k].placeholder};
    }
    return Ok(());
  }

  // From a host path to a key

  function Key(placeholder: string, suffix: seq<string>): string
  {
    if suffix == [] then "${" + placeholder + "}" else "${" + placeholder + "}/" + Join(suffix)
  }

  /** The first mapping whose root the path lies under. */
  function FirstMatch(path: HostPath, ms: seq<Mapping>): (m: Option<Mapping>)
    ensures m.Some? ==> Prefix(m.value.root, path)
  {
    if ms == [] then None
    else if Prefix(ms[0].root, path) then Some(ms[0])
    else FirstMatch(path, ms[1..])
  }

  function Suffix(path: HostPath, root: HostPath): seq<string>
    requires Prefix(root, path)
  {
    Names(path[|root|..])
  }

  function Absolute(path: HostPath, workingDir: HostPath): HostPath
  {
    if IsAbsolute(path) then Normalized(path) else Normalized(workingDir + path)
  }

  lemma {:induction false} FirstMatchMatches(path: HostPath, ms: seq<Mapping>)
    ensures FirstMatch(path, ms).Some? ==>
              FirstMatch(path, ms).value in ms && Prefix(FirstMatch(path, ms).value.root, path)
    ensures FirstMatch(path, ms).None? <==> forall k :: 0 <= k < |ms| ==> !Prefix(ms[k].root, path)
  {
    if ms != [] {
      FirstMatchMatches(path, ms[1..]);
      assert forall k :: 1 <= k < |ms| ==> ms[k] == ms[1..][k - 1];
    }
  }

  /** The key of a path under its mapping. */
  function MappedKey(path: HostPath, ms: seq<Mapping>): Outcome<string>
  {
    match FirstMatch(path, ms)
    case None => Err(UnmappedAbsolutePath)
    case Some(m) => Ok(Key(m.placeholder, Suffix(path, m.root)))
  }

  /** `normalize_resolved_mapped_path_with`, on roots already resolved. */
  method NormalizeMappedPath(path: HostPath, workingDir: HostPath, ms: seq<Mapping>) returns (r: Outcome<string>)
    ensures r == MappedKey(Absolute(path, workingDir), ms)
  {
    var absolute;
    if IsAbsolute(path) {
      absolute := NormalizeComponents(path);
    } else {
      absolute := NormalizeComponents(workingDir + path);
    }
    assert ms[0..] == ms;
    for k := 0 to |ms|
      invariant FirstMatch(absolute, ms) == FirstMatch(absolute, ms[k..])
    {
      assert ms[k..][1..] == ms[k + 1..];
      if Prefix(ms[k].root, absolute) {
        var suffix := Suffix(absolute, ms[k].root);
        return Ok(if suffix == [] then "${" + ms[k].placeholder + "}"
                  else "${" + ms[k].placeholder + "}/" + Join(suffix));
      }
    }
    return Err(UnmappedAbsolutePath);
  }

  predicate IsSystemPath(path: HostPath, system: seq<HostPath>)
  {
    exists k :: 0 <= k < |system| && Prefix(system[k], path)
  }

  /** `ActionBuilder::normalize_path`: a mapped key, or a system path verbatim. */
  function PathKey(absolute: HostPath, ms: seq<Mapping>, system: seq<HostPath>): Outcome<string>
  {
    match MappedKey(absolute, ms)
    case Ok(key) => Ok(key)
    case Err(reason) => if IsSystemPath(absolute, system) then Ok(Show(absolute)) else Err(reason)
  }

  // From a key to a host path

  predicate SafePiece(piece: string) { piece != "" && piece != "." && piece != ".." && '\\' !in piece }

  predicate SafeSuffix(suffix: string)
  {
    suffix == "" || forall k :: 0 <= k < |Split(suffix)| ==> SafePiece(Split(suffix)[k])
  }

  predicate StartsWith(s: string, prefix: string) { prefix <= s }

  /** The part of `value` after a placeholder, if it starts with that placeholder. */
  function AfterPlaceholder(value: string, placeholder: string): Option<string>
  {
    var prefix := "${" + placeholder + "}";
    if value == prefix then Some("")
    else if StartsWith(value, prefix + "/") then Some(value[|prefix| + 1..])
    else None
  }

  function FilterEmpty(pieces: seq<string>): seq<string>
  {
    if pieces == [] then []
    else (if pieces[0] == "" then [] else [pieces[0]]) + FilterEmpty(pieces[1..])
  }

  function Expand(root: HostPath, suffix: string): Outcome<HostPath>
  {
    if !IsAbsolute(root) || !SafeSuffix(suffix) then Err(InvalidPredictedInput)
    else Ok(Normalized(root) + NameParts(FilterEmpty(Split(suffix))))
  }

  function Verbatim(value: string, system: seq<HostPath>): Outcome<HostPath>
  {
    var path := Components(value);
    if IsAbsolute(path) && IsSystemPath(path, system) && Normalized(path) == path then Ok(path)
    else Err(InvalidPredictedInput)
  }

  function Denormalized(value: string, ms: seq<Mapping>, system: seq<HostPath>): Outcome<HostPath>
  {
    if ms == [] then Verbatim(value, system)
    else
      match AfterPlaceholder(value, ms[0].placeholder)
      case Some(suffix) => Expand(ms[0].root, suffix)
      case None => Denormalized(value, ms[1..], system)
  }

  /** `denormalize_path`. */
  method DenormalizePath(value: string, ms: seq<Mapping>, system: seq<HostPath>) returns (r: Outcome<HostPath>)
    ensures r == Denormalized(value, ms, system)
  {
    assert ms[0..] == ms;
    for k := 0 to |ms|
      invariant Denormalized(value, ms, system) == Denormalized(value, ms[k..], system)
    {
      assert ms[k..][1..] == ms[k + 1..];
      var prefix := "${" + ms[k].placeholder + "}";
      var suffix;
      if value == prefix {
        suffix := "";
      } else if StartsWith(value, prefix + "/") {
        suffix := value[|prefix| + 1..];
      } else {
        continue;
      }
      if !IsAbsolute(ms[k].root) || !SafeSuffix(suffix) {
        return Err(InvalidPredictedInput);
      }
      var path := NormalizeComponents(ms[k].root);
      path := path + NameParts(FilterEmpty(Split(suffix)));
      return Ok(path);
    }
    return Verbatim(value, system);
  }
}
