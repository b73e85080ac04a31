/**
  The two walks over stored directory objects: the depth-first intactness check
  with one shared `seen` set, and the worklist that lists the objects a result
  names. Both are given any object graph, cycles and missing objects included.
 */
module ObjectGraph {
  import opened Cache

  datatype Directory = Directory(files: seq<Digest>, directories: seq<Digest>)

  datatype Captured = Captured(stdout: Digest, stderr: Digest)

  /**
    One stored file: whether its bytes match the digest it is stored under,
    whether it can be read, and what it parses to. The verification and the
    read are separate calls in the store, so they fail separately.
   */
  datatype Blob = Blob(verified: bool, readable: bool, directory: Option<Directory>, captured: Option<Captured>)

  type Store = map<Digest, Blob>

  /** `LocalCas::find` answering `Ok(Some(_))`. */
  predicate Present(s: Store, d: Digest) { d in s && s[d].verified }

  /** The directory object stored under `d`, read without verification. */
  function DirectoryAt(s: Store, d: Digest): Option<Directory>
  {
    if d in s && s[d].readable then s[d].directory else None
  }

  predicate Edge(s: Store, a: Digest, b: Digest)
  {
    DirectoryAt(s, a).Some? && b in DirectoryAt(s, a).value.directories
  }

  ghost predicate ReachesIn(s: Store, a: Digest, b: Digest, n: nat)
    decreases n
  {
    if n == 0 then a == b else exists m :: Edge(s, a, m) && ReachesIn(s, m, b, n - 1)
  }

  ghost predicate Reachable(s: Store, a: Digest, b: Digest) { exists n: nat :: ReachesIn(s, a, b, n) }

  /** A directory object that is stored, verified and parses, and whose files are all stored and verified. */
  predicate SoundDirectory(s: Store, d: Digest)
  {
    && Present(s, d)
    && DirectoryAt(s, d).Some?
    && forall k :: 0 <= k < |DirectoryAt(s, d).value.files| ==> Present(s, DirectoryAt(s, d).value.files[k])
  }

  /** What intactness of a directory means, with no reference to a walk. */
  ghost predicate Intact(s: Store, root: Digest)
  {
    forall d :: Reachable(s, root, d) ==> SoundDirectory(s, d)
  }

  lemma ReachSelf(s: Store, a: Digest)
    ensures Reachable(s, a, a)
  {
    assert ReachesIn(s, a, a, 0);
  }

  lemma ReachStep(s: Store, a: Digest, m: Digest, b: Digest)
    requires Edge(s, a, m) && Reachable(s, m, b)
    ensures Reachable(s, a, b)
  {
    var n: nat :| ReachesIn(s, m, b, n);
    assert ReachesIn(s, a, b, n + 1);
  }

  lemma {:induction false} ReachExtend(s: Store, a: Digest, b: Digest, c: Digest, n: nat)
    requires ReachesIn(s, a, b, n) && Edge(s, b, c)
    ensures Reachable(s, a, c)
    decreases n
  {
    if n == 0 {
      ReachSelf(s, c);
      ReachStep(s, a, c, c);
    } else {
      var m :| Edge(s, a, m) && ReachesIn(s, m, b, n - 1);
      ReachExtend(s, m, b, c, n - 1);
      ReachStep(s, a, m, c);
    }
  }

  /** A set that no edge leaves holds everything reachable from its members. */
  lemma {:induction false} ClosedSetHoldsReachable(s: Store, closed: set<Digest>, a: Digest, b: Digest, n: nat)
    requires forall x, y :: x in closed && Edge(s, x, y) ==> y in closed
    requires a in closed && ReachesIn(s, a, b, n)
    ensures b in closed
    decreases n
  {
    if n > 0 {
      var m :| Edge(s, a, m) && ReachesIn(s, m, b, n - 1);
      ClosedSetHoldsReachable(s, closed, m, b, n - 1);
    }
  }

  /** What the walk has established about the directories it newly visited. */
  ghost predicate Explored(s: Store, seen: set<Digest>, visited: set<Digest>)
  {
    forall x :: x in visited && x !in seen ==> SoundDirectory(s, x) && ChildrenIn(s, x, visited)
  }

  ghost predicate ChildrenIn(s: Store, x: Digest, visited: set<Digest>)
  {
    forall y :: Edge(s, x, y) ==> y in visited
  }

  /** `directory_is_intact`: `seen` is threaded through the whole walk and never undone. */
  method DirectoryIsIntact(s: Store, digest: Digest, seen: set<Digest>) returns (intact: bool, visited: set<Digest>)
    ensures seen <= visited && digest in visited
    ensures intact ==> Explored(s, seen, visited)
    ensures !intact ==> exists bad :: Reachable(s, digest, bad) && !SoundDirectory(s, bad)
    decreases s.Keys - seen
  {
    if digest in seen {
      return true, seen;
    }
    visited := seen + {digest};
    ReachSelf(s, digest);
    if !Present(s, digest) || !s[digest].readable || s[digest].directory.None? {
      return false, visited;
    }
    var directory := s[digest].directory.value;
    for k := 0 to |directory.files|
      invariant forall j :: 0 <= j < k ==> Present(s, directory.files[j])
    {
      if !Present(s, directory.files[k]) {
        return false, visited;
      }
    }
    for k := 0 to |directory.directories|
      invariant seen + {digest} <= visited
      invariant forall j :: 0 <= j < k ==> directory.directories[j] in visited
      invariant Explored(s, seen + {digest}, visited)
    {
      var child := directory.directories[k];
      assert Edge(s, digest, child);
      ghost var before := visited;
      intact, visited := DirectoryIsIntact(s, child, visited);
      if !intact {
        ghost var bad :| Reachable(s, child, bad) && !SoundDirectory(s, bad);
        ReachStep(s, digest, child, bad);
        return;
      }
      assert forall x :: x in before && x !in seen + {digest} ==> ChildrenIn(s, x, before);
    }
    assert ChildrenIn(s, digest, visited);
    return true, visited;
  }

  lemma ExploredRootIsIntact(s: Store, root: Digest, visited: set<Digest>)
    requires root in visited && Explored(s, {}, visited)
    ensures Intact(s, root)
  {
    forall d | Reachable(s, root, d) ensures SoundDirectory(s, d) {
      var n: nat :| ReachesIn(s, root, d, n);
      forall x, y | x in visited && Edge(s, x, y) ensures y in visited {
        assert ChildrenIn(s, x, visited);
      }
      ClosedSetHoldsReachable(s, visited, root, d, n);
    }
  }

  /** Whether every object a result names that the index can see is stored and verified. */
  ghost predicate ResultIntact(s: Store, result: ActionResult)
  {
    && Present(s, result.action)
    && (result.metadata.Some? ==> Present(s, result.metadata.value))
    && (result.outputRoot.Some? ==> Intact(s, result.outputRoot.value))
  }

  /** `is_intact` answers exactly the walk-free question, on every object graph. */
  method IsIntact(s: Store, result: ActionResult) returns (intact: bool)
    ensures intact <==> ResultIntact(s, result)
  {
    if !Present(s, result.action) || (result.metadata.Some? && !Present(s, result.metadata.value)) {
      return false;
    }
    if result.outputRoot.None? {
      return true;
    }
    var visited;
    intact, visited := DirectoryIsIntact(s, result.outputRoot.value, {});
    if intact {
      ExploredRootIsIntact(s, result.outputRoot.value, visited);
    }
  }

  /** Every digest the worklist could ever hold. */
  ghost function Mentioned(s: Store, root: Option<Digest>): set<Digest>
  {
    (if root.Some? then {root.value} else {}) +
    (set d, c | d in s && c in ChildrenOf(s, d) :: c)
  }

  ghost predicate NamedByTree(s: Store, root: Digest, d: Digest)
  {
    || Reachable(s, root, d)
    || exists x :: Reachable(s, root, x) && DirectoryAt(s, x).Some? && d in DirectoryAt(s, x).value.files
  }

  ghost predicate NamedByMetadata(s: Store, metadata: Digest, d: Digest)
  {
    || d == metadata
    || (&& metadata in s && s[metadata].readable && s[metadata].captured.Some?
        && (d == s[metadata].captured.value.stdout || d == s[metadata].captured.value.stderr))
  }

  /** The objects a result names, defined by reachability alone. */
  ghost predicate Named(s: Store, result: ActionResult, d: Digest)
  {
    || d == result.action
    || (result.metadata.Some? && NamedByMetadata(s, result.metadata.value, d))
    || (result.outputRoot.Some? && NamedByTree(s, result.outputRoot.value, d))
  }

  function FilesOf(s: Store, d: Digest): seq<Digest>
  {
    if DirectoryAt(s, d).Some? then DirectoryAt(s, d).value.files else []
  }

  function ChildrenOf(s: Store, d: Digest): seq<Digest>
  {
    if DirectoryAt(s, d).Some? then DirectoryAt(s, d).value.directories else []
  }

  /** The worklist's progress: `seen` are directories already expanded, the rest still pending. */
  ghost predicate WalkInv(s: Store, root: Digest, seen: set<Digest>, pending: seq<Digest>, objects: seq<Digest>)
  {
    && (root in seen || root in pending)
    && (forall x :: x in seen || x in pending ==> Reachable(s, root, x))
    && (forall x, y :: x in seen && Edge(s, x, y) ==> y in seen || y in pending)
    && (forall d :: d in objects <==> d in seen || exists x :: x in seen && d in FilesOf(s, x))
  }

  lemma VisitKeepsWalkInv(s: Store, root: Digest, seen: set<Digest>, pending: seq<Digest>, objects: seq<Digest>)
    requires |pending| > 0 && WalkInv(s, root, seen, pending, objects)
    ensures var d, rest := pending[|pending| - 1], pending[..|pending| - 1];
            if d in seen then WalkInv(s, root, seen, rest, objects)
            else WalkInv(s, root, seen + {d}, rest + ChildrenOf(s, d), objects + [d] + FilesOf(s, d))
  {
    var d, rest := pending[|pending| - 1], pending[..|pending| - 1];
    assert pending == rest + [d];
    assert forall x :: x in pending <==> x in rest || x == d;
    if d !in seen {
      forall x | x in seen + {d} || x in rest + ChildrenOf(s, d) ensures Reachable(s, root, x) {
        if x in ChildrenOf(s, d) {
          var n: nat :| ReachesIn(s, root, d, n);
          ReachExtend(s, root, d, x, n);
        }
      }
      var after := objects + [d] + FilesOf(s, d);
      forall e ensures e in after <==> e in seen + {d} || exists x :: x in seen + {d} && e in FilesOf(s, x) {
        assert e in after <==> e in objects || e == d || e in FilesOf(s, d);
      }
    }
  }

  lemma FinishedWalkIsExact(s: Store, root: Digest, seen: set<Digest>, objects: seq<Digest>)
    requires WalkInv(s, root, seen, [], objects)
    ensures forall d :: d in objects <==> NamedByTree(s, root, d)
  {
    forall x | Reachable(s, root, x) ensures x in seen {
      var n: nat :| ReachesIn(s, root, x, n);
      ClosedSetHoldsReachable(s, seen, root, x, n);
    }
    forall d ensures d in objects <==> NamedByTree(s, root, d) {
      if d in objects && d !in seen {
        var x :| x in seen && d in FilesOf(s, x);
        assert Reachable(s, root, x);
      }
    }
  }

  /** The directory part of `named_objects`: the `while let Some(digest) = pending.pop()` loop. */
  method TreeObjects(s: Store, root: Digest) returns (objects: seq<Digest>)
    ensures forall d :: d in objects <==> NamedByTree(s, root, d)
  {
    objects := [];
    var seen: set<Digest> := {};
    var pending := [root];
    ReachSelf(s, root);
    while pending != []
      invariant WalkInv(s, root, seen, pending, objects)
      invariant seen <= Mentioned(s, Some(root))
      invariant forall x :: x in pending ==> x in Mentioned(s, Some(root))
      decreases Mentioned(s, Some(root)) - seen, |pending|
    {
      VisitKeepsWalkInv(s, root, seen, pending, objects);
      var digest := pending[|pending| - 1];
      pending := pending[..|pending| - 1];
      if digest in seen {
        continue;
      }
      seen := seen + {digest};
      objects := objects + [digest];
      if digest in s && s[digest].readable && s[digest].directory.Some? {
        var directory := s[digest].directory.value;
        objects := objects + directory.files;
        pending := pending + directory.directories;
      } else {
        assert objects == objects + FilesOf(s, digest) && pending == pending + ChildrenOf(s, digest);
      }
    }
    FinishedWalkIsExact(s, root, seen, objects);
  }

  /** `named_objects` lists exactly the objects the result names. */
  method NamedObjects(s: Store, result: ActionResult) returns (objects: seq<Digest>)
    ensures forall d :: d in objects <==> Named(s, result, d)
  {
    objects := [result.action];
    if result.metadata.Some? {
      var metadata := result.metadata.value;
      objects := objects + [metadata];
      if metadata in s && s[metadata].readable && s[metadata].captured.Some? {
        objects := objects + [s[metadata].captured.value.stdout, s[metadata].captured.value.stderr];
      }
    }
    if result.outputRoot.Some? {
      var tree := TreeObjects(s, result.outputRoot.value);
      objects := objects + tree;
    }
  }

  /** The compiler output a result's metadata names: listed by the walk, not seen by the intactness check. */
  ghost predicate NamedAsOutput(s: Store, result: ActionResult, d: Digest)
  {
    && result.metadata.Some?
    && NamedByMetadata(s, result.metadata.value, d)
    && d != result.metadata.value
  }

  /** On an intact result every named object is stored and verified, captured compiler output excepted. */
  lemma IntactCoversNamed(s: Store, result: ActionResult, d: Digest)
    requires ResultIntact(s, result) && Named(s, result, d)
    ensures Present(s, d) || NamedAsOutput(s, result, d)
  {
    if result.outputRoot.Some? && NamedByTree(s, result.outputRoot.value, d) {
      var root := result.outputRoot.value;
      if !Reachable(s, root, d) {
        var x :| Reachable(s, root, x) && DirectoryAt(s, x).Some? && d in DirectoryAt(s, x).value.files;
        assert SoundDirectory(s, x);
      } else {
        assert SoundDirectory(s, d);
      }
    }
  }

  /** The exception is real: an intact result can name compiler output that is not stored. */
  lemma IntactMayMissOutput()
    ensures exists s: Store, result: ActionResult, d: Digest ::
              ResultIntact(s, result) && Named(s, result, d) && !Present(s, d)
  {
    var s: Store := map[0 := Blob(true, true, None, Some(Captured(1, 2)))];
    var result := ActionResult(1, 0, Some(0), None);
    assert ResultIntact(s, result) && Named(s, result, 1) && !Present(s, 1);
  }
}
