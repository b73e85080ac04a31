/**
  Laws of cache-key paths: a key turns back into the path it came from, keys of
  different paths differ, a prediction cannot reach outside the mapped and
  system roots, and keys do not depend on where the checkout lives.
 */
module PathKeyLaws {
  import opened Cache
  import opened Paths
  import opened PathKeys

  // Placeholders

  lemma KeyText(placeholder: string, names: seq<string>)
    ensures var prefix := "${" + placeholder + "}";
            && Key(placeholder, names) == prefix + (if names == [] then "" else "/" + Join(names))
            && |prefix| == |placeholder| + 3
  {
    if names == [] {
      assert "${" + placeholder + "}" + "" == "${" + placeholder + "}";
    } else {
      assert "${" + placeholder + "}/" + Join(names) == "${" + placeholder + "}" + ("/" + Join(names));
    }
  }

  /** A placeholder has no closing brace, so a text starts with at most one of them. */
  lemma PlaceholdersDiffer(a: string, b: string, rest: string, more: string)
    requires GoodPlaceholder(a) && GoodPlaceholder(b) && a != b
    ensures "${" + a + "}" + rest != "${" + b + "}" + more
  {
    var x, y := "${" + a + "}" + rest, "${" + b + "}" + more;
    if |a| < |b| {
      assert x[2 + |a|] == '}' && y[2 + |a|] == b[|a|] && PlaceholderChar(b[|a|]);
    } else if |b| < |a| {
      assert y[2 + |b|] == '}' && x[2 + |b|] == a[|b|] && PlaceholderChar(a[|b|]);
    } else {
      var k :| 0 <= k < |a| && a[k] != b[k];
      assert x[2 + k] == a[k] && y[2 + k] == b[k];
    }
  }

  lemma AfterOwnPlaceholder(placeholder: string, names: seq<string>)
    requires GoodNames(names)
    ensures AfterPlaceholder(Key(placeholder, names), placeholder) == Some(Join(names))
  {
    var prefix := "${" + placeholder + "}";
    KeyText(placeholder, names);
    if names != [] {
      var key := Key(placeholder, names);
      assert key == prefix + "/" + Join(names);
      assert key[|prefix| + 1..] == Join(names);
    }
  }

  lemma AfterOtherPlaceholder(a: string, names: seq<string>, b: string)
    requires GoodPlaceholder(a) && GoodPlaceholder(b) && a != b
    ensures AfterPlaceholder(Key(a, names), b) == None
  {
    var key, prefix := Key(a, names), "${" + b + "}";
    KeyText(a, names);
    var rest := if names == [] then "" else "/" + Join(names);
    PlaceholdersDiffer(a, b, rest, "");
    assert prefix + "" == prefix;
    if StartsWith(key, prefix + "/") {
      var more := "/" + key[|prefix| + 1..];
      assert key == prefix + more;
      PlaceholdersDiffer(a, b, rest, more);
    }
  }

  /** A key is expanded through the mapping it was made with. */
  lemma {:induction false} DenormalizedThrough(ms: seq<Mapping>, k: nat, names: seq<string>, system: seq<HostPath>)
    requires k < |ms| && GoodNames(names)
    requires forall j :: 0 <= j <= k ==> GoodPlaceholder(ms[j].placeholder)
    requires forall j :: 0 <= j < k ==> ms[j].placeholder != ms[k].placeholder
    ensures Denormalized(Key(ms[k].placeholder, names), ms, system) == Expand(ms[k].root, Join(names))
  {
    if k == 0 {
      AfterOwnPlaceholder(ms[0].placeholder, names);
    } else {
      AfterOtherPlaceholder(ms[k].placeholder, names, ms[0].placeholder);
      DenormalizedThrough(ms[1..], k - 1, names, system);
    }
  }

  lemma {:induction false} NothingEmpty(names: seq<string>)
    requires GoodNames(names)
    ensures FilterEmpty(names) == names
  {
    if names != [] {
      NothingEmpty(names[1..]);
    }
  }

  predicate HasBackslash(names: seq<string>) { exists k :: 0 <= k < |names| && '\\' in names[k] }

  /** Expanding a suffix made of names gives those names back, unless one holds a backslash. */
  lemma ExpandJoined(root: HostPath, names: seq<string>)
    requires IsAbsolute(root) && GoodNames(names)
    ensures Expand(root, Join(names)) ==
            if HasBackslash(names) then Err(InvalidPredictedInput) else Ok(Normalized(root) + NameParts(names))
  {
    if names == [] {
      assert FilterEmpty([""]) == [] + FilterEmpty([""][1..]);
      assert Split("") == [""];
    } else {
      SplitJoin(names);
      NothingEmpty(names);
      if HasBackslash(names) {
        var k :| 0 <= k < |names| && '\\' in names[k];
        assert !SafePiece(names[k]);
      }
    }
  }

  // There and back

  /** The mapping a path is keyed under: a position in the list, and the names left over. */
  lemma {:induction false} MatchPosition(path: HostPath, ms: seq<Mapping>) returns (k: nat)
    requires FirstMatch(path, ms).Some?
    ensures k < |ms| && FirstMatch(path, ms) == Some(ms[k]) && Prefix(ms[k].root, path)
  {
    if Prefix(ms[0].root, path) {
      k := 0;
    } else {
      k := MatchPosition(path, ms[1..]);
      k := k + 1;
    }
  }

  lemma {:induction false} NamesAreGood(p: HostPath)
    requires forall k :: 0 <= k < |p| && p[k].Name? ==> GoodName(p[k].text)
    ensures GoodNames(Names(p))
  {
    if p != [] {
      NamesAreGood(p[1..]);
    }
  }

  ghost predicate GoodPath(p: HostPath) { Normal(p) && forall k :: 1 <= k < |p| ==> GoodName(p[k].text) }

  lemma SuffixOfGood(path: HostPath, root: HostPath)
    requires GoodPath(path) && Prefix(root, path) && root != []
    ensures GoodNames(Suffix(path, root)) && path == root + NameParts(Suffix(path, root))
  {
    NamesAreGood(path[|root|..]);
    NormalSplit(path[|root|..]);
    assert path == path[..|root|] + path[|root|..];
  }

  ghost predicate RootsValid(ms: seq<Mapping>) { forall k :: 0 <= k < |ms| ==> WellFormed(ms[k].root) }

  lemma ResolvedRoot(ms: seq<Mapping>, k: nat)
    requires k < |ms| && RootsValid(ms) && Validated(ms)
    ensures Normal(Resolved(ms)[k].root)
  {
    assert Distinct(ms, k);
    NormalizedIsNormal(ms[k].root);
  }

  lemma DistinctFacts(ms: seq<Mapping>, k: nat)
    requires k < |ms| && Validated(ms)
    ensures IsAbsolute(ms[k].root)
    ensures forall j :: 0 <= j <= k ==> GoodPlaceholder(ms[j].placeholder)
    ensures forall j :: 0 <= j < k ==> ms[j].placeholder != ms[k].placeholder
  {
    assert Distinct(ms, k);
    forall j | 0 <= j <= k ensures GoodPlaceholder(ms[j].placeholder) {
      assert Distinct(ms, j);
    }
  }

  /** A key made from a mapping never reads as a system path, nor the other way round. */
  lemma SystemKeyHasNoPlaceholder(p: HostPath, placeholder: string)
    ensures AfterPlaceholder(Show(p), placeholder) == None
  {
    var prefix := "${" + placeholder + "}";
    assert Show(p)[0] == '/' && prefix[0] == '$' && (prefix + "/")[0] == '$';
  }

  lemma {:induction false} SystemKeyIsVerbatim(p: HostPath, ms: seq<Mapping>, system: seq<HostPath>)
    ensures Denormalized(Show(p), ms, system) == Verbatim(Show(p), system)
  {
    if ms != [] {
      SystemKeyHasNoPlaceholder(p, ms[0].placeholder);
      SystemKeyIsVerbatim(p, ms[1..], system);
    }
  }

  /** The names that follow the placeholder in a path's key; none for a path that has no mapping. */
  ghost function KeyedNames(path: HostPath, ms: seq<Mapping>): seq<string>
  {
    match FirstMatch(path, ms)
    case None => []
    case Some(m) => Suffix(path, m.root)
  }

  /**
    A path that has a key is what that key denormalises to, exactly when no
    name after the placeholder holds a backslash.
   */
  lemma KeyRoundTrip(path: HostPath, ms: seq<Mapping>, system: seq<HostPath>)
    requires GoodPath(path) && Validated(ms) && RootsValid(ms)
    requires PathKey(path, Resolved(ms), system).Ok?
    ensures Denormalized(PathKey(path, Resolved(ms), system).value, ms, system)
            == if HasBackslash(KeyedNames(path, Resolved(ms))) then Err(InvalidPredictedInput) else Ok(path)
  {
    var resolved := Resolved(ms);
    if FirstMatch(path, resolved).Some? {
      var k := MatchPosition(path, resolved);
      ResolvedRoot(ms, k);
      SuffixOfGood(path, resolved[k].root);
      DistinctFacts(ms, k);
      var names := Suffix(path, resolved[k].root);
      DenormalizedThrough(ms, k, names, system);
      ExpandJoined(ms[k].root, names);
    } else {
      SystemKeyIsVerbatim(path, ms, system);
      NamesAreGood(path);
      ComponentsOfShow(path);
      NormalIsFixed(path);
    }
  }

  /** The absolute form of any path given in an absolute directory is a good path. */
  lemma AbsoluteIsGood(path: HostPath, workingDir: HostPath)
    requires Valid(path) && Valid(workingDir) && IsAbsolute(workingDir)
    ensures GoodPath(Absolute(path, workingDir))
  {
    var whole := if IsAbsolute(path) then path else workingDir + path;
    NormalizedIsNormal(whole);
    var p := Normalized(whole);
    forall k | 1 <= k < |p| ensures GoodName(p[k].text) {
      assert p[k] in whole;
    }
  }

  /** So every path as it is spelled, in a directory spelled as absolute, comes to a good path. */
  lemma SpelledIsGood(path: string, workingDir: string)
    requires IsAbsolute(Components(workingDir))
    ensures GoodPath(Absolute(Components(path), Components(workingDir)))
  {
    ComponentsAreValid(path);
    ComponentsAreValid(workingDir);
    AbsoluteIsGood(Components(path), Components(workingDir));
  }

  /** Different paths never share a key. */
  lemma KeysNeverCollide(p: HostPath, q: HostPath, ms: seq<Mapping>, system: seq<HostPath>)
    requires GoodPath(p) && GoodPath(q) && Validated(ms) && RootsValid(ms)
    requires PathKey(p, Resolved(ms), system).Ok?
    requires PathKey(p, Resolved(ms), system) == PathKey(q, Resolved(ms), system)
    ensures p == q
  {
    var resolved := Resolved(ms);
    var mapped, other := FirstMatch(p, resolved).Some?, FirstMatch(q, resolved).Some?;
    FirstMatchMatches(p, resolved);
    FirstMatchMatches(q, resolved);
    if mapped && other {
      MappedKeysDiffer(p, q, ms);
    } else if mapped || other {
      MappedIsNotVerbatim(if mapped then p else q, if mapped then q else p, resolved);
    } else {
      NamesAreGood(p);
      NamesAreGood(q);
      ComponentsOfShow(p);
      ComponentsOfShow(q);
    }
  }

  lemma MappedIsNotVerbatim(m: HostPath, s: HostPath, ms: seq<Mapping>)
    requires FirstMatch(m, ms).Some?
    ensures MappedKey(m, ms) != Ok(Show(s))
  {
    FirstMatchMatches(m, ms);
    var found := FirstMatch(m, ms).value;
    KeyText(found.placeholder, Suffix(m, found.root));
    assert Show(s)[0] == '/' && Key(found.placeholder, Suffix(m, found.root))[0] == '$';
  }

  lemma MappedKeysDiffer(p: HostPath, q: HostPath, ms: seq<Mapping>)
    requires GoodPath(p) && GoodPath(q) && Validated(ms) && RootsValid(ms)
    requires FirstMatch(p, Resolved(ms)).Some? && FirstMatch(q, Resolved(ms)).Some?
    requires MappedKey(p, Resolved(ms)) == MappedKey(q, Resolved(ms))
    ensures p == q
  {
    var resolved := Resolved(ms);
    var i := MatchPosition(p, resolved);
    var j := MatchPosition(q, resolved);
    ResolvedRoot(ms, i);
    ResolvedRoot(ms, j);
    SuffixOfGood(p, resolved[i].root);
    SuffixOfGood(q, resolved[j].root);
    var a, b := Suffix(p, resolved[i].root), Suffix(q, resolved[j].root);
    AfterOwnPlaceholder(ms[j].placeholder, b);
    DistinctFacts(ms, i);
    DistinctFacts(ms, j);
    if ms[i].placeholder != ms[j].placeholder {
      AfterOtherPlaceholder(ms[i].placeholder, a, ms[j].placeholder);
    } else {
      AfterOwnPlaceholder(ms[i].placeholder, a);
      assert i == j;
      if a != [] { SplitJoin(a); }
      if b != [] { SplitJoin(b); }
      assert a == b;
    }
  }

  /** `path` is `root` followed by plain names. */
  ghost predicate Inside(path: HostPath, root: HostPath)
  {
    Prefix(root, path) && forall k :: |root| <= k < |path| ==> path[k].Name? && SafePiece(path[k].text)
  }

  lemma {:induction false} FilteredAreSafe(pieces: seq<string>)
    requires forall k :: 0 <= k < |pieces| ==> pieces[k] == "" || SafePiece(pieces[k])
    ensures forall k :: 0 <= k < |FilterEmpty(pieces)| ==> SafePiece(FilterEmpty(pieces)[k])
  {
    if pieces != [] {
      FilteredAreSafe(pieces[1..]);
    }
  }

  lemma ExpandStaysInside(root: HostPath, suffix: string)
    ensures Expand(root, suffix).Ok? ==> IsAbsolute(root) && Inside(Expand(root, suffix).value, Normalized(root))
  {
    if Expand(root, suffix).Ok? {
      if suffix == "" {
        assert Split(suffix) == [""];
      }
      FilteredAreSafe(Split(suffix));
    }
  }

  /** Whatever text a prediction holds, it resolves to a path under a mapping root or a system root, or to nothing. */
  lemma {:induction false} DenormalizedStaysInside(value: string, ms: seq<Mapping>, system: seq<HostPath>)
    ensures Denormalized(value, ms, system).Ok? ==>
              var p := Denormalized(value, ms, system).value;
              || (exists k :: 0 <= k < |ms| && IsAbsolute(ms[k].root) && Inside(p, Normalized(ms[k].root)))
              || (IsAbsolute(p) && IsSystemPath(p, system) && Normalized(p) == p)
  {
    if ms != [] && Denormalized(value, ms, system).Ok? {
      var after := AfterPlaceholder(value, ms[0].placeholder);
      if after.Some? {
        ExpandStaysInside(ms[0].root, after.value);
      } else {
        DenormalizedStaysInside(value, ms[1..], system);
        var p := Denormalized(value, ms, system).value;
        if !(IsAbsolute(p) && IsSystemPath(p, system) && Normalized(p) == p) {
          var k :| 0 <= k < |ms[1..]| && IsAbsolute(ms[1..][k].root) && Inside(p, Normalized(ms[1..][k].root));
          assert ms[1..][k] == ms[k + 1];
        }
      }
    }
  }

  // Which mapping wins

  predicate Encloses(a: HostPath, b: HostPath) { a < b }

  /** No root comes before one nested inside it. */
  ghost predicate DeeperFirst(ms: seq<Mapping>)
  {
    forall i, j :: 0 <= i < j < |ms| ==> !Encloses(ms[i].root, ms[j].root)
  }

  ghost predicate IsDeepest(path: HostPath, ms: seq<Mapping>, m: Mapping)
  {
    && m in ms && Prefix(m.root, path)
    && forall k :: 0 <= k < |ms| && Prefix(ms[k].root, path) ==> |ms[k].root| <= |m.root|
  }

  ghost predicate AlwaysDeepest(ms: seq<Mapping>)
  {
    forall path :: FirstMatch(path, ms).Some? ==> IsDeepest(path, ms, FirstMatch(path, ms).value)
  }

  lemma PrefixesNest(a: HostPath, b: HostPath, path: HostPath)
    requires Prefix(a, path) && Prefix(b, path) && |a| <= |b|
    ensures Prefix(a, b) && (|a| < |b| ==> Encloses(a, b)) && (|a| == |b| ==> a == b)
  {
  }

  lemma {:induction false} FirstMatchIsFirst(path: HostPath, ms: seq<Mapping>) returns (k: nat)
    requires FirstMatch(path, ms).Some?
    ensures k < |ms| && FirstMatch(path, ms) == Some(ms[k]) && Prefix(ms[k].root, path)
    ensures forall j :: 0 <= j < k ==> !Prefix(ms[j].root, path)
  {
    if Prefix(ms[0].root, path) {
      k := 0;
    } else {
      k := FirstMatchIsFirst(path, ms[1..]);
      k := k + 1;
    }
  }

  lemma DeeperFirstPicksDeepest(path: HostPath, ms: seq<Mapping>)
    requires DeeperFirst(ms) && FirstMatch(path, ms).Some?
    ensures IsDeepest(path, ms, FirstMatch(path, ms).value)
  {
    var k := FirstMatchIsFirst(path, ms);
    forall j | 0 <= j < |ms| && Prefix(ms[j].root, path) ensures |ms[j].root| <= |ms[k].root| {
      if |ms[j].root| > |ms[k].root| {
        PrefixesNest(ms[k].root, ms[j].root, path);
      }
    }
  }

  ghost predicate DistinctRoots(ms: seq<Mapping>) { forall i, j :: 0 <= i < j < |ms| ==> ms[i].root != ms[j].root }

  /** Matching picks the deepest root for every path exactly when no root precedes one nested inside it. */
  lemma DeepestMatchCondition(ms: seq<Mapping>)
    requires DistinctRoots(ms)
    ensures AlwaysDeepest(ms) <==> DeeperFirst(ms)
  {
    if DeeperFirst(ms) {
      forall path | FirstMatch(path, ms).Some? ensures IsDeepest(path, ms, FirstMatch(path, ms).value) {
        DeeperFirstPicksDeepest(path, ms);
      }
    } else {
      var i, j :| 0 <= i < j < |ms| && Encloses(ms[i].root, ms[j].root);
      FirstMatchMatches(ms[j].root, ms);
      assert Prefix(ms[i].root, ms[j].root);
      var k := FirstMatchIsFirst(ms[j].root, ms);
      assert k <= i;
      assert |ms[k].root| < |ms[j].root| by {
        if |ms[k].root| == |ms[j].root| { PrefixesNest(ms[k].root, ms[j].root, ms[j].root); }
      }
      assert !IsDeepest(ms[j].root, ms, ms[k]);
    }
  }

  lemma OrderedRootIsNormal(ms: seq<Mapping>, k: nat)
    requires forall j :: 0 <= j < |ms| ==> Normal(ms[j].root)
    requires k < |Ordered(ms)|
    ensures Normalized(Ordered(ms)[k].root) == Ordered(ms)[k].root
  {
    OrderedSorts(ms);
    assert Ordered(ms)[k] in multiset(Ordered(ms));
    NormalIsFixed(Ordered(ms)[k].root);
  }

  /** Sorting by component count is deepest first when the roots are spelled without `.` and `..`. */
  lemma OrderedIsDeeperFirst(ms: seq<Mapping>)
    requires forall k :: 0 <= k < |ms| ==> Normal(ms[k].root)
    ensures DeeperFirst(Resolved(Ordered(ms)))
  {
    OrderedSorts(ms);
    forall k | 0 <= k < |Ordered(ms)| ensures Resolved(Ordered(ms))[k].root == Ordered(ms)[k].root {
      OrderedRootIsNormal(ms, k);
    }
  }

  const ROUNDABOUT := Mapping([Root, Name("x"), Name("y"), Up, Up, Name("w")], "OUTER")
  const DIRECT := Mapping([Root, Name("w")], "OUTER")
  const NESTED := Mapping([Root, Name("w"), Name("t")], "INNER")

  lemma Examples()
    ensures Ordered([ROUNDABOUT, NESTED]) == [ROUNDABOUT, NESTED] && Ordered([DIRECT, NESTED]) == [NESTED, DIRECT]
    ensures Normalized(ROUNDABOUT.root) == DIRECT.root
    ensures Normalized(DIRECT.root) == DIRECT.root && Normalized(NESTED.root) == NESTED.root
  {
    assert Ordered([NESTED]) == [NESTED] by { assert [NESTED][1..] == []; }
    assert [ROUNDABOUT, NESTED][1..] == [NESTED] && [DIRECT, NESTED][1..] == [NESTED];
    assert Insert(DIRECT, [NESTED]) == [NESTED] + Insert(DIRECT, []) by { assert [NESTED][1..] == []; }
    NormalIsFixed(DIRECT.root);
    NormalIsFixed(NESTED.root);
    var r := ROUNDABOUT.root;
    NormalIsFixed([Root, Name("x"), Name("y")]);
    assert r[..5] == [Root, Name("x"), Name("y"), Up, Up];
    assert r[..5][..4] == [Root, Name("x"), Name("y"), Up];
    assert r[..5][..4][..3] == [Root, Name("x"), Name("y")];
    assert Normalized(r[..5][..4]) == [Root, Name("x")];
    assert Normalized(r[..5]) == [Root];
  }

  /** Otherwise it need not be: `..` components count although normalising removes them. */
  lemma ParentComponentsBreakTheOrder()
    ensures Validated(Ordered([ROUNDABOUT, NESTED])) && !AlwaysDeepest(Resolved(Ordered([ROUNDABOUT, NESTED])))
    ensures Resolved(Ordered([DIRECT, NESTED])) == [NESTED, DIRECT]
    ensures Resolved(Ordered([ROUNDABOUT, NESTED])) == [DIRECT, NESTED]
    ensures MappedKey(NESTED.root, [DIRECT, NESTED]) == Ok("${OUTER}/t")
    ensures MappedKey(NESTED.root, [NESTED, DIRECT]) == Ok("${INNER}")
  {
    Examples();
    BrokenOrder();
    ExampleKeys();
    assert Resolved([NESTED, DIRECT]) == [NESTED, DIRECT];
  }

  lemma ExampleKeys()
    ensures MappedKey(NESTED.root, [DIRECT, NESTED]) == Ok("${OUTER}/t")
    ensures MappedKey(NESTED.root, [NESTED, DIRECT]) == Ok("${INNER}")
  {
    var path := NESTED.root;
    assert DIRECT.root <= path;
    assert path[2..] == [Name("t")] && [Name("t")][1..] == [] && path[3..] == [];
    assert Names([Name("t")]) == ["t"] + Names([]);
    assert Suffix(path, DIRECT.root) == ["t"] && Suffix(path, NESTED.root) == [];
    assert "${" + "OUTER" + "}/" + "t" == "${OUTER}/t" && "${" + "INNER" + "}" == "${INNER}";
  }

  lemma BrokenOrder()
    ensures Validated([ROUNDABOUT, NESTED]) && Resolved([ROUNDABOUT, NESTED]) == [DIRECT, NESTED]
    ensures !AlwaysDeepest([DIRECT, NESTED])
  {
    Examples();
    assert Distinct([ROUNDABOUT, NESTED], 0) && Distinct([ROUNDABOUT, NESTED], 1);
    var ms := [DIRECT, NESTED];
    assert Encloses(ms[0].root, ms[1].root);
    DeepestMatchCondition(ms);
  }

  // Moving the checkout

  /** Same placeholders, and roots that nest by the same suffixes. */
  ghost predicate SameShape(ms: seq<Mapping>, moved: seq<Mapping>)
  {
    && |ms| == |moved|
    && (forall k :: 0 <= k < |ms| ==> ms[k].placeholder == moved[k].placeholder)
    && (forall a, b, s: HostPath :: 0 <= a < |ms| && 0 <= b < |ms| ==>
          (ms[b].root == ms[a].root + s <==> moved[b].root == moved[a].root + s))
  }

  ghost predicate SameMappings(ms: seq<Mapping>, sorted: seq<Mapping>)
  {
    forall m :: m in ms <==> m in sorted
  }

  /** The deepest root over a path is one mapping, whatever order the list is in. */
  lemma DeepestIsUnique(path: HostPath, ms: seq<Mapping>, sorted: seq<Mapping>, a: nat)
    requires DistinctRoots(ms) && SameMappings(ms, sorted) && DeeperFirst(sorted)
    requires a < |ms| && IsDeepest(path, ms, ms[a])
    ensures FirstMatch(path, sorted) == Some(ms[a])
  {
    FirstMatchMatches(path, sorted);
    assert ms[a] in sorted;
    DeeperFirstPicksDeepest(path, sorted);
    var m := FirstMatch(path, sorted).value;
    var b :| 0 <= b < |ms| && ms[b] == m;
    var c :| 0 <= c < |sorted| && sorted[c] == ms[a];
    PrefixesNest(m.root, ms[a].root, path);
  }

  lemma {:induction false} DeepestExists(path: HostPath, ms: seq<Mapping>, i: nat) returns (a: nat)
    requires i < |ms| && Prefix(ms[i].root, path)
    ensures a < |ms| && IsDeepest(path, ms, ms[a])
    decreases |path| - |ms[i].root|
  {
    if exists k :: 0 <= k < |ms| && Prefix(ms[k].root, path) && |ms[k].root| > |ms[i].root| {
      var k :| 0 <= k < |ms| && Prefix(ms[k].root, path) && |ms[k].root| > |ms[i].root|;
      a := DeepestExists(path, ms, k);
    } else {
      a := i;
    }
  }

  /** A root over one path, at least as deep as root `i`, is over the corresponding path too, with the same rest. */
  lemma Corresponds(ms: seq<Mapping>, moved: seq<Mapping>, i: nat, rest: HostPath, a: nat)
    requires SameShape(ms, moved) && i < |ms| && a < |ms|
    requires Prefix(ms[a].root, ms[i].root + rest) && |ms[a].root| >= |ms[i].root|
    ensures Prefix(moved[a].root, moved[i].root + rest)
    ensures |moved[a].root| - |moved[i].root| == |ms[a].root| - |ms[i].root|
    ensures (moved[i].root + rest)[|moved[a].root|..] == (ms[i].root + rest)[|ms[a].root|..]
  {
    var path := ms[i].root + rest;
    PrefixesNest(ms[i].root, ms[a].root, path);
    var s := ms[a].root[|ms[i].root|..];
    assert ms[a].root == ms[i].root + s;
    assert moved[a].root == moved[i].root + s;
    assert rest == s + rest[|s|..];
    assert moved[i].root + rest == moved[a].root + rest[|s|..];
    assert path == ms[a].root + rest[|s|..];
  }

  /**
    Keys survive moving the checkout: corresponding paths get the same key,
    whatever order each list is sorted into.
   */
  lemma KeysSurviveMoving(ms: seq<Mapping>, moved: seq<Mapping>, sorted: seq<Mapping>, movedSorted: seq<Mapping>,
                          i: nat, rest: HostPath)
    requires SameShape(ms, moved) && DistinctRoots(ms) && DistinctRoots(moved)
    requires SameMappings(ms, sorted) && DeeperFirst(sorted)
    requires SameMappings(moved, movedSorted) && DeeperFirst(movedSorted)
    requires i < |ms|
    ensures MappedKey(ms[i].root + rest, sorted) == MappedKey(moved[i].root + rest, movedSorted)
    ensures MappedKey(ms[i].root + rest, sorted).Ok?
  {
    var p, q := ms[i].root + rest, moved[i].root + rest;
    var a := DeepestExists(p, ms, i);
    Corresponds(ms, moved, i, rest, a);
    forall b | 0 <= b < |moved| && Prefix(moved[b].root, q) ensures |moved[b].root| <= |moved[a].root| {
      if |moved[b].root| > |moved[a].root| {
        Corresponds(moved, ms, i, rest, b);
      }
    }
    DeepestIsUnique(p, ms, sorted, a);
    DeepestIsUnique(q, moved, movedSorted, a);
  }
}
