/**
  Task manifests: the bounded, ordered lists of predictions a task keeps, and
  the two operations that bring new values into one. The serialised size of a
  prediction is a parameter.
 */
module Manifests {
  import opened Cache

  const MAX_PREDICTIONS: nat := 16 * 1024
  const MAX_BYTES: nat := 15 * 1024 * 1024
  const OVERHEAD: nat := 256

  datatype Prediction = Prediction(invocation: Digest, action: Digest, adapter: string, payload: string)

  datatype Failure = TooManyPredictions | InvalidManifest | InvalidPrediction | ChangedTooOften | RemoteFailed

  type Outcome<+T> = Result<T, Failure>

  type Size = Prediction -> nat

  function Invocations(list: seq<Prediction>): set<Digest>
  {
    if list == [] then {} else {list[0].invocation} + Invocations(list[1..])
  }

  predicate Distinct(list: seq<Prediction>)
  {
    list == [] || (list[0].invocation !in Invocations(list[1..]) && Distinct(list[1..]))
  }

  /** The list collected into a map, so that the last value of an invocation wins. */
  function Index(list: seq<Prediction>): map<Digest, Prediction>
  {
    if list == [] then map[] else map[list[0].invocation := list[0]] + Index(list[1..])
  }

  function Keep(list: seq<Prediction>, wanted: set<Digest>): seq<Prediction>
  {
    if list == [] then []
    else if list[0].invocation in wanted then [list[0]] + Keep(list[1..], wanted)
    else Keep(list[1..], wanted)
  }

  function Drop(list: seq<Prediction>, unwanted: set<Digest>): seq<Prediction>
  {
    Keep(list, Invocations(list) - unwanted)
  }

  /** Every invocation's last entry, in the order of those entries. */
  function LastOfEach(list: seq<Prediction>): seq<Prediction>
  {
    if list == [] then []
    else if list[0].invocation in Invocations(list[1..]) then LastOfEach(list[1..])
    else [list[0]] + LastOfEach(list[1..])
  }

  /** Oldest first: what the updates leave of the list, then the updates. */
  function Ordered(list: seq<Prediction>, updates: seq<Prediction>): seq<Prediction>
  {
    Drop(list, Invocations(updates)) + LastOfEach(updates)
  }

  function One(p: Prediction): nat { 1 }

  function Weight(list: seq<Prediction>, weight: Size): nat
  {
    if list == [] then 0 else weight(list[0]) + Weight(list[1..], weight)
  }

  function Serialised(size: Size): Size { p => size(p) + 1 }

  function Bytes(list: seq<Prediction>, size: Size): nat
  {
    OVERHEAD + Weight(list, Serialised(size))
  }

  /** One pass of retirement: unprotected entries go, oldest first, while the total is over the limit. */
  function Retired(list: seq<Prediction>, protected: set<Digest>, weight: Size, total: int, limit: nat): seq<Prediction>
  {
    if list == [] then []
    else if total > limit && list[0].invocation !in protected then
      Retired(list[1..], protected, weight, total - weight(list[0]), limit)
    else [list[0]] + Retired(list[1..], protected, weight, total, limit)
  }

  /** `update_task_predictions_in_order`. */
  function Updated(list: seq<Prediction>, updates: seq<Prediction>, protected: set<Digest>, size: Size)
    : Outcome<seq<Prediction>>
  {
    if |protected| > MAX_PREDICTIONS then Err(TooManyPredictions) else
    var ordered := Ordered(list, updates);
    var few := Retired(ordered, protected, One, |ordered|, MAX_PREDICTIONS);
    var kept := Retired(few, protected, Serialised(size), Bytes(few, size), MAX_BYTES);
    if Bytes(kept, size) > MAX_BYTES then Err(TooManyPredictions) else Ok(kept)
  }

  // What retirement amounts to.

  /** The list with the unprotected entries before position `c` gone. */
  function Cut(list: seq<Prediction>, protected: set<Digest>, c: nat): seq<Prediction>
    requires c <= |list|
  {
    if c == 0 then list
    else if list[0].invocation in protected then [list[0]] + Cut(list[1..], protected, c - 1)
    else Cut(list[1..], protected, c - 1)
  }

  /** The two bounds on a published manifest. */
  predicate Fits(list: seq<Prediction>, size: Size)
  {
    |list| <= MAX_PREDICTIONS && Bytes(list, size) <= MAX_BYTES
  }

  /** Position `c` is the first at which cutting makes the list fit. */
  ghost predicate FirstFit(list: seq<Prediction>, protected: set<Digest>, size: Size, c: nat)
  {
    && c <= |list|
    && Fits(Cut(list, protected, c), size)
    && (forall d: nat | d < c :: !Fits(Cut(list, protected, d), size))
  }

  // Lists.

  lemma Cons(p: Prediction, list: seq<Prediction>)
    ensures Invocations([p] + list) == {p.invocation} + Invocations(list)
    ensures Distinct([p] + list) <==> p.invocation !in Invocations(list) && Distinct(list)
  {
    assert ([p] + list)[1..] == list;
  }

  lemma {:induction false} HasInvocation(list: seq<Prediction>, p: Prediction)
    requires p in list
    ensures p.invocation in Invocations(list)
  {
    if p != list[0] {
      HasInvocation(list[1..], p);
    }
  }

  /** In a list of distinct invocations an invocation tells the entry. */
  lemma {:induction false} SameEntry(list: seq<Prediction>, p: Prediction, q: Prediction)
    requires Distinct(list) && p in list && q in list && p.invocation == q.invocation
    ensures p == q
  {
    if p in list[1..] && q in list[1..] {
      SameEntry(list[1..], p, q);
    } else if p in list[1..] {
      HasInvocation(list[1..], p);
    } else if q in list[1..] {
      HasInvocation(list[1..], q);
    }
  }

  lemma {:induction false} InvocationsAppend(a: seq<Prediction>, b: seq<Prediction>)
    ensures Invocations(a + b) == Invocations(a) + Invocations(b)
    ensures Distinct(a + b) <==> Distinct(a) && Distinct(b) && Invocations(a) !! Invocations(b)
  {
    if a == [] {
      assert a + b == b;
    } else {
      assert (a + b)[1..] == a[1..] + b;
      InvocationsAppend(a[1..], b);
    }
  }

  lemma {:induction false} KeepFacts(list: seq<Prediction>, wanted: set<Digest>)
    ensures forall p :: p in Keep(list, wanted) <==> p in list && p.invocation in wanted
    ensures |Keep(list, wanted)| <= |list|
  {
    if list != [] {
      assert forall p :: p in list <==> p == list[0] || p in list[1..];
      KeepFacts(list[1..], wanted);
    }
  }

  lemma {:induction false} KeepInvocations(list: seq<Prediction>, wanted: set<Digest>)
    ensures Invocations(Keep(list, wanted)) == Invocations(list) * wanted
    ensures Distinct(list) ==> Distinct(Keep(list, wanted))
  {
    if list != [] {
      KeepInvocations(list[1..], wanted);
      Cons(list[0], Keep(list[1..], wanted));
    }
  }

  lemma {:induction false} KeepAll(list: seq<Prediction>, wanted: set<Digest>)
    requires Invocations(list) <= wanted
    ensures Keep(list, wanted) == list
  {
    if list != [] {
      KeepAll(list[1..], wanted);
      assert list == [list[0]] + list[1..];
    }
  }

  lemma {:induction false} IndexFacts(list: seq<Prediction>)
    ensures Index(list).Keys == Invocations(list)
    ensures forall i :: i in Index(list) ==> Index(list)[i] in list && Index(list)[i].invocation == i
  {
    if list != [] {
      IndexFacts(list[1..]);
    }
  }

  lemma IndexOfDistinct(list: seq<Prediction>, p: Prediction)
    requires Distinct(list)
    ensures p in list <==> Get(Index(list), p.invocation) == Some(p)
  {
    IndexFacts(list);
    if p in list {
      HasInvocation(list, p);
      SameEntry(list, p, Index(list)[p.invocation]);
    }
  }

  lemma {:induction false} LastOfEachFacts(list: seq<Prediction>)
    ensures Invocations(LastOfEach(list)) == Invocations(list)
    ensures Distinct(LastOfEach(list))
    ensures Index(LastOfEach(list)) == Index(list)
  {
    if list != [] {
      var after := LastOfEach(list[1..]);
      LastOfEachFacts(list[1..]);
      Cons(list[0], after);
      IndexFacts(list[1..]);
      assert ([list[0]] + after)[1..] == after;
    }
  }

  lemma {:induction false} LastOfDistinct(list: seq<Prediction>)
    requires Distinct(list)
    ensures LastOfEach(list) == list
  {
    if list != [] {
      LastOfDistinct(list[1..]);
      assert list == [list[0]] + list[1..];
    }
  }

  lemma {:induction false} KeepAppends(a: seq<Prediction>, b: seq<Prediction>, wanted: set<Digest>)
    ensures Keep(a + b, wanted) == Keep(a, wanted) + Keep(b, wanted)
  {
    if a == [] {
      assert a + b == b;
    } else {
      assert (a + b)[1..] == a[1..] + b;
      KeepAppends(a[1..], b, wanted);
    }
  }

  // Retirement.

  lemma {:induction false} WeightAppends(a: seq<Prediction>, b: seq<Prediction>, weight: Size)
    ensures Weight(a + b, weight) == Weight(a, weight) + Weight(b, weight)
  {
    if a == [] {
      assert a + b == b;
    } else {
      assert (a + b)[1..] == a[1..] + b;
      WeightAppends(a[1..], b, weight);
    }
  }

  lemma {:induction false} OnesCount(list: seq<Prediction>)
    ensures Weight(list, One) == |list|
  {
    if list != [] {
      OnesCount(list[1..]);
    }
  }

  lemma {:induction false} KeepWeighsLess(list: seq<Prediction>, wanted: set<Digest>, weight: Size)
    ensures Weight(Keep(list, wanted), weight) <= Weight(list, weight)
  {
    if list != [] {
      KeepWeighsLess(list[1..], wanted, weight);
      var kept := Keep(list[1..], wanted);
      assert ([list[0]] + kept)[1..] == kept;
      assert [] + kept == kept;
    }
  }

  /**
    A pass of retirement is the first cut that is light enough, or, when even
    the protected entries alone are too heavy, leaves exactly those. `before`
    is what was counted and is not in the list.
   */
  ghost predicate RetiresAt(
    list: seq<Prediction>, protected: set<Digest>, weight: Size, before: nat, limit: nat, c: nat)
  {
    && c <= |list|
    && Retired(list, protected, weight, before + Weight(list, weight), limit) == Cut(list, protected, c)
    && (forall d: nat | d < c :: before + Weight(Cut(list, protected, d), weight) > limit)
    && (before + Weight(Cut(list, protected, c), weight) <= limit
        || Cut(list, protected, c) == Keep(list, protected))
  }

  lemma {:induction false} RetiredCut(
    list: seq<Prediction>, protected: set<Digest>, weight: Size, before: nat, limit: nat) returns (c: nat)
    ensures RetiresAt(list, protected, weight, before, limit, c)
  {
    if list == [] {
      c := 0;
    } else if before + Weight(list, weight) > limit && list[0].invocation !in protected {
      c := RetiredCut(list[1..], protected, weight, before, limit);
      assert Keep(list, protected) == Keep(list[1..], protected);
      c := c + 1;
    } else {
      c := RetiredCut(list[1..], protected, weight, before + weight(list[0]), limit);
      if c == 0 {
        assert Cut(list[1..], protected, 0) == list[1..] && Cut(list, protected, 0) == list;
        assert list == [list[0]] + list[1..];
        assert before + Weight(list, weight) > limit ==>
          Keep(list, protected) == [list[0]] + Keep(list[1..], protected);
      } else {
        KeepsFirst(list, protected, weight, before, limit, c);
        c := c + 1;
      }
    }
  }

  lemma KeepsFirst(list: seq<Prediction>, protected: set<Digest>, weight: Size, before: nat, limit: nat, c: nat)
    requires list != [] && (list[0].invocation in protected || before + Weight(list, weight) <= limit)
    requires c > 0 && RetiresAt(list[1..], protected, weight, before + weight(list[0]), limit, c)
    ensures RetiresAt(list, protected, weight, before, limit, c + 1)
  {
    var rest := list[1..];
    assert before + weight(list[0]) + Weight(Cut(rest, protected, 0), weight) > limit;
    assert ([list[0]] + Cut(rest, protected, c))[1..] == Cut(rest, protected, c);
    forall e: nat | e < c + 1 ensures before + Weight(Cut(list, protected, e), weight) > limit {
      if e > 0 {
        assert ([list[0]] + Cut(rest, protected, e - 1))[1..] == Cut(rest, protected, e - 1);
      }
    }
  }

  /** A cut is the protected entries before it and everything after it. */
  lemma {:induction false} CutParts(list: seq<Prediction>, protected: set<Digest>, c: nat)
    requires c <= |list|
    ensures Cut(list, protected, c) == Keep(list[..c], protected) + list[c..]
  {
    if c > 0 {
      CutParts(list[1..], protected, c - 1);
      assert list[..c][1..] == list[1..][..c - 1];
      assert list[c..] == list[1..][c - 1..];
    } else {
      assert list[..0] == [];
    }
  }

  /** Cutting later is cutting again, and cutting again is cutting later or nothing. */
  lemma {:induction false} CutAgain(list: seq<Prediction>, protected: set<Digest>, c: nat, d: nat) returns (e: nat)
    requires c <= d <= |list|
    ensures e <= |Cut(list, protected, c)|
    ensures Cut(list, protected, d) == Cut(Cut(list, protected, c), protected, e)
    ensures e == d - c + |Keep(list[..c], protected)|
  {
    if c == 0 {
      assert list[..0] == [];
      e := d;
    } else {
      e := CutAgain(list[1..], protected, c - 1, d - 1);
      assert list[..c][1..] == list[1..][..c - 1];
      if list[0].invocation in protected {
        var rest := Cut(list[1..], protected, c - 1);
        assert ([list[0]] + rest)[1..] == rest;
        e := e + 1;
      }
    }
  }

  /** Protected entries are never cut. */
  lemma {:induction false} CutKeepsProtected(list: seq<Prediction>, protected: set<Digest>, c: nat)
    requires c <= |list|
    ensures Keep(Cut(list, protected, c), protected) == Keep(list, protected)
    ensures forall p :: p in Cut(list, protected, c) ==> p in list
  {
    if c > 0 {
      CutKeepsProtected(list[1..], protected, c - 1);
      var rest := Cut(list[1..], protected, c - 1);
      assert ([list[0]] + rest)[1..] == rest;
    }
  }

  lemma {:induction false} DistinctCount(list: seq<Prediction>, within: set<Digest>)
    requires Distinct(list) && Invocations(list) <= within
    ensures |list| <= |within|
  {
    if list != [] {
      DistinctCount(list[1..], within - {list[0].invocation});
    }
  }

  /** Within the protected entries kept before it, a further cut changes nothing. */
  lemma CutProtected(list: seq<Prediction>, protected: set<Digest>, c: nat, e: nat)
    requires c <= |list| && e <= |Keep(list[..c], protected)|
    ensures e <= |Cut(list, protected, c)|
    ensures Cut(Cut(list, protected, c), protected, e) == Cut(list, protected, c)
  {
    var front, few := Keep(list[..c], protected), Cut(list, protected, c);
    CutParts(list, protected, c);
    CutParts(few, protected, e);
    assert few[..e] == front[..e] && few == few[..e] + few[e..];
    assert front == front[..e] + front[e..];
    InvocationsAppend(front[..e], front[e..]);
    KeepInvocations(list[..c], protected);
    KeepAll(few[..e], protected);
  }

  /** The two passes together are one first fit. */
  lemma TwoPasses(list: seq<Prediction>, protected: set<Digest>, size: Size) returns (c: nat)
    requires |Keep(list, protected)| <= MAX_PREDICTIONS
    ensures c <= |list|
    ensures
      var few := Retired(list, protected, One, |list|, MAX_PREDICTIONS);
      Retired(few, protected, Serialised(size), Bytes(few, size), MAX_BYTES) == Cut(list, protected, c)
    ensures forall d: nat | d < c :: !Fits(Cut(list, protected, d), size)
    ensures Fits(Cut(list, protected, c), size) || Cut(list, protected, c) == Keep(list, protected)
  {
    var c1 := RetiredCut(list, protected, One, 0, MAX_PREDICTIONS);
    var few, front := Cut(list, protected, c1), |Keep(list[..c1], protected)|;
    OnesCount(list);
    OnesCount(few);
    var e := RetiredCut(few, protected, Serialised(size), OVERHEAD, MAX_BYTES);
    CutKeepsProtected(list, protected, c1);
    CutParts(list, protected, c1);
    if e <= front {
      CutProtected(list, protected, c1, e);
      c := c1;
    } else {
      c := e - front + c1;
      var again := CutAgain(list, protected, c1, c);
    }
    CutShrinks(few, protected, e);
    forall d: nat | d < c ensures !Fits(Cut(list, protected, d), size) {
      if d < c1 {
        OnesCount(Cut(list, protected, d));
      } else {
        var again := CutAgain(list, protected, c1, d);
      }
    }
  }

  lemma {:induction false} CutShrinks(list: seq<Prediction>, protected: set<Digest>, c: nat)
    requires c <= |list|
    ensures |Cut(list, protected, c)| <= |list|
  {
    if c > 0 {
      CutShrinks(list[1..], protected, c - 1);
    }
  }

  lemma OverlayAssociates<K, V>(a: map<K, V>, b: map<K, V>, c: map<K, V>)
    ensures (a + b) + c == a + (b + c)
  {
  }

  lemma {:induction false} IndexAppends(a: seq<Prediction>, b: seq<Prediction>)
    ensures Index(a + b) == Index(a) + Index(b)
  {
    if a == [] {
      assert a + b == b;
    } else {
      assert (a + b)[1..] == a[1..] + b;
      IndexAppends(a[1..], b);
      OverlayAssociates(map[a[0].invocation := a[0]], Index(a[1..]), Index(b));
    }
  }

  lemma {:induction false} IndexOfKeep(list: seq<Prediction>, wanted: set<Digest>)
    ensures Index(Keep(list, wanted)) == map i | i in Index(list) && i in wanted :: Index(list)[i]
  {
    if list != [] {
      IndexOfKeep(list[1..], wanted);
      var kept := Keep(list[1..], wanted);
      assert ([list[0]] + kept)[1..] == kept;
    }
  }

  /** As values, the ordered list is the old one overlaid with the updates. */
  lemma OrderedFacts(list: seq<Prediction>, updates: seq<Prediction>)
    ensures Index(Ordered(list, updates)) == Index(list) + Index(updates)
    ensures Distinct(list) ==> Distinct(Ordered(list, updates))
  {
    var wanted := Invocations(list) - Invocations(updates);
    IndexAppends(Drop(list, Invocations(updates)), LastOfEach(updates));
    IndexOfKeep(list, wanted);
    LastOfEachFacts(updates);
    IndexFacts(list);
    IndexFacts(updates);
    KeepInvocations(list, wanted);
    InvocationsAppend(Drop(list, Invocations(updates)), LastOfEach(updates));
  }

  /** Where two kept entries stood. */
  lemma {:induction false} KeepInOrder(list: seq<Prediction>, wanted: set<Digest>, j: nat, k: nat)
    returns (a: nat, b: nat)
    requires j <= k < |Keep(list, wanted)|
    ensures a <= b < |list| && list[a] == Keep(list, wanted)[j] && list[b] == Keep(list, wanted)[k]
    ensures j < k ==> a < b
  {
    if list[0].invocation !in wanted {
      a, b := KeepInOrder(list[1..], wanted, j, k);
      a, b := a + 1, b + 1;
    } else if k == 0 {
      a, b := 0, 0;
    } else {
      a, b := KeepInOrder(list[1..], wanted, if j == 0 then k - 1 else j - 1, k - 1);
      a, b := if j == 0 then 0 else a + 1, b + 1;
    }
  }

  ghost predicate LastAt(list: seq<Prediction>, a: nat, p: Prediction)
  {
    a < |list| && list[a] == p && forall c :: a < c < |list| ==> list[c].invocation != p.invocation
  }

  /** Where two last entries stood. */
  lemma {:induction false} LastInOrder(list: seq<Prediction>, j: nat, k: nat) returns (a: nat, b: nat)
    requires j <= k < |LastOfEach(list)|
    ensures LastAt(list, a, LastOfEach(list)[j]) && LastAt(list, b, LastOfEach(list)[k])
    ensures a <= b && (j < k ==> a < b)
  {
    if list[0].invocation in Invocations(list[1..]) {
      a, b := LastInOrder(list[1..], j, k);
      LastLater(list, a, LastOfEach(list)[j]);
      LastLater(list, b, LastOfEach(list)[k]);
      a, b := a + 1, b + 1;
    } else if k == 0 {
      FirstIsLast(list);
      a, b := 0, 0;
    } else {
      a, b := LastInOrder(list[1..], if j == 0 then k - 1 else j - 1, k - 1);
      LastLater(list, b, LastOfEach(list)[k]);
      if j == 0 {
        FirstIsLast(list);
      } else {
        LastLater(list, a, LastOfEach(list)[j]);
      }
      a, b := if j == 0 then 0 else a + 1, b + 1;
    }
  }

  lemma LastLater(list: seq<Prediction>, a: nat, p: Prediction)
    requires list != [] && LastAt(list[1..], a, p)
    ensures LastAt(list, a + 1, p)
  {
    forall c | a + 1 < c < |list| ensures list[c].invocation != p.invocation {
      assert list[c] == list[1..][c - 1];
    }
  }

  lemma FirstIsLast(list: seq<Prediction>)
    requires list != [] && list[0].invocation !in Invocations(list[1..])
    ensures LastAt(list, 0, list[0])
  {
    forall c | 0 < c < |list| ensures list[c].invocation != list[0].invocation {
      HasInvocation(list[1..], list[c]);
    }
  }

  /**
    Every updated entry stands after every entry that was not updated. Those not
    updated keep their order, and the updated ones that of their last updates.
   */
  lemma OrderedByAge(list: seq<Prediction>, updates: seq<Prediction>, j: nat, k: nat) returns (a: nat, b: nat)
    requires j < k < |Ordered(list, updates)|
    ensures var p, q := Ordered(list, updates)[j], Ordered(list, updates)[k];
            && (p.invocation in Invocations(updates) ==> q.invocation in Invocations(updates))
            && (q.invocation !in Invocations(updates) ==> a < b < |list| && list[a] == p && list[b] == q)
            && (p.invocation in Invocations(updates) ==> a < b && LastAt(updates, a, p) && LastAt(updates, b, q))
  {
    var older, newer := Drop(list, Invocations(updates)), LastOfEach(updates);
    OlderNotUpdated(list, updates, j);
    OlderNotUpdated(list, updates, k);
    a, b := 0, 0;
    if k < |older| {
      a, b := KeepInOrder(list, Invocations(list) - Invocations(updates), j, k);
    } else if |older| <= j {
      a, b := LastInOrder(updates, j - |older|, k - |older|);
    }
  }

  lemma OlderNotUpdated(list: seq<Prediction>, updates: seq<Prediction>, k: nat)
    requires k < |Ordered(list, updates)|
    ensures k < |Drop(list, Invocations(updates))| <==> Ordered(list, updates)[k].invocation !in Invocations(updates)
  {
    var older, newer := Drop(list, Invocations(updates)), LastOfEach(updates);
    if k < |older| {
      DroppedAt(list, Invocations(updates), k);
    } else {
      LastUpdated(updates, k - |older|);
    }
  }

  lemma DroppedAt(list: seq<Prediction>, unwanted: set<Digest>, k: nat)
    requires k < |Drop(list, unwanted)|
    ensures Drop(list, unwanted)[k].invocation !in unwanted
  {
    var kept := Drop(list, unwanted);
    assert kept[k] in kept;
    KeepFacts(list, Invocations(list) - unwanted);
  }

  lemma LastUpdated(updates: seq<Prediction>, k: nat)
    requires k < |LastOfEach(updates)|
    ensures LastOfEach(updates)[k].invocation in Invocations(updates)
  {
    HasInvocation(LastOfEach(updates), LastOfEach(updates)[k]);
    LastOfEachFacts(updates);
  }

  /**
    The bounded durable order: an update succeeds exactly when the protected
    entries fit on their own, and then keeps everything from the first position
    on that makes the result fit, so no unprotected entry is retired before an
    older one, or without need.
   */
  lemma UpdatedIsFirstFit(list: seq<Prediction>, updates: seq<Prediction>, protected: set<Digest>, size: Size)
    requires Distinct(list)
    ensures Updated(list, updates, protected, size).Ok?
       <==> |protected| <= MAX_PREDICTIONS && Fits(Keep(Ordered(list, updates), protected), size)
    ensures Updated(list, updates, protected, size).Ok? ==>
      exists c: nat :: FirstFit(Ordered(list, updates), protected, size, c)
                    && Updated(list, updates, protected, size) == Ok(Cut(Ordered(list, updates), protected, c))
  {
    if |protected| <= MAX_PREDICTIONS {
      var ordered := Ordered(list, updates);
      OrderedFacts(list, updates);
      KeepInvocations(ordered, protected);
      DistinctCount(Keep(ordered, protected), protected);
      var c := TwoPasses(ordered, protected, size);
      var kept := Cut(ordered, protected, c);
      CutKeepsProtected(ordered, protected, c);
      KeepWeighsLess(kept, protected, Serialised(size));
      KeepFacts(kept, protected);
    }
  }

  /** A cut keeps order and values, and every protected invocation. */
  lemma CutValues(list: seq<Prediction>, protected: set<Digest>, c: nat)
    requires Distinct(list) && c <= |list|
    ensures Distinct(Cut(list, protected, c))
    ensures forall i :: i in Index(Cut(list, protected, c)) ==>
              Get(Index(list), i) == Some(Index(Cut(list, protected, c))[i])
    ensures forall i :: i in protected ==> Get(Index(Cut(list, protected, c)), i) == Get(Index(list), i)
  {
    var kept, front := Cut(list, protected, c), list[..c];
    assert list == front + list[c..];
    CutParts(list, protected, c);
    InvocationsAppend(front, list[c..]);
    KeepInvocations(front, protected);
    InvocationsAppend(Keep(front, protected), list[c..]);
    IndexAppends(front, list[c..]);
    IndexAppends(Keep(front, protected), list[c..]);
    IndexOfKeep(front, protected);
    IndexFacts(front);
    IndexFacts(list[c..]);
  }

  /**
    What an update means for the values: nothing but overlay and retirement,
    and overlay alone when everything fits.
   */
  lemma UpdatedValues(list: seq<Prediction>, updates: seq<Prediction>, protected: set<Digest>, size: Size)
    requires Distinct(list) && Updated(list, updates, protected, size).Ok?
    ensures
      var kept, overlay := Updated(list, updates, protected, size).value, Index(list) + Index(updates);
      && Distinct(kept) && Fits(kept, size)
      && (forall i :: i in Index(kept) ==> Get(overlay, i) == Some(Index(kept)[i]))
      && (forall i :: i in protected ==> Get(Index(kept), i) == Get(overlay, i))
      && (Fits(Ordered(list, updates), size) ==> Index(kept) == overlay)
  {
    var ordered := Ordered(list, updates);
    UpdatedIsFirstFit(list, updates, protected, size);
    OrderedFacts(list, updates);
    var c: nat :| FirstFit(ordered, protected, size, c)
               && Updated(list, updates, protected, size) == Ok(Cut(ordered, protected, c));
    CutValues(ordered, protected, c);
    assert c > 0 ==> !Fits(Cut(ordered, protected, 0), size);
  }

  // The operations as they run.

  method KeepLastOfEach(updates: seq<Prediction>) returns (last: seq<Prediction>, invocations: set<Digest>)
    ensures last == LastOfEach(updates) && invocations == Invocations(updates)
  {
    last, invocations := [], {};
    var k := |updates|;
    while k > 0
      invariant 0 <= k <= |updates|
      invariant last == LastOfEach(updates[k..]) && invocations == Invocations(updates[k..])
    {
      k := k - 1;
      assert updates[k..][1..] == updates[k + 1..];
      if updates[k].invocation !in invocations {
        last, invocations := [updates[k]] + last, invocations + {updates[k].invocation};
      } else {
        assert invocations == {updates[k].invocation} + invocations;
      }
    }
    assert updates[0..] == updates;
  }

  /** Both retirement loops: the first counts entries, the second bytes. */
  method Retire(list: seq<Prediction>, protected: set<Digest>, weight: Size, total: nat, limit: nat)
    returns (kept: seq<Prediction>, left: int)
    ensures kept == Retired(list, protected, weight, total, limit)
    ensures left == total - Weight(list, weight) + Weight(kept, weight)
  {
    kept, left := [], total;
    var k := 0;
    while k < |list|
      invariant 0 <= k <= |list|
      invariant kept + Retired(list[k..], protected, weight, left, limit)
             == Retired(list, protected, weight, total, limit)
      invariant left == total - Weight(list, weight) + Weight(list[k..], weight) + Weight(kept, weight)
    {
      var p := list[k];
      assert list[k..][1..] == list[k + 1..];
      if left > limit && p.invocation !in protected {
        left := left - weight(p);
      } else {
        ghost var rest := Retired(list[k + 1..], protected, weight, left, limit);
        assert kept + ([p] + rest) == (kept + [p]) + rest;
        WeightAppends(kept, [p], weight);
        kept := kept + [p];
      }
      k := k + 1;
    }
    assert kept + [] == kept;
  }

  method TotalWeight(list: seq<Prediction>, weight: Size) returns (total: nat)
    ensures total == Weight(list, weight)
  {
    total := 0;
    var k := |list|;
    while k > 0
      invariant 0 <= k <= |list| && total == Weight(list[k..], weight)
    {
      k := k - 1;
      assert list[k..][1..] == list[k + 1..];
      total := weight(list[k]) + total;
    }
    assert list[0..] == list;
  }

  lemma {:induction false} NothingRetired(
    list: seq<Prediction>, protected: set<Digest>, weight: Size, total: int, limit: nat)
    requires total <= limit
    ensures Retired(list, protected, weight, total, limit) == list
  {
    if list != [] {
      NothingRetired(list[1..], protected, weight, total, limit);
      assert list == [list[0]] + list[1..];
    }
  }

  /** `update_task_predictions_in_order`, as it runs. */
  method UpdateInOrder(list: seq<Prediction>, updates: seq<Prediction>, protected: set<Digest>, size: Size)
    returns (r: Outcome<seq<Prediction>>)
    ensures r == Updated(list, updates, protected, size)
  {
    if |protected| > MAX_PREDICTIONS {
      return Err(TooManyPredictions);
    }
    var last, invocations := KeepLastOfEach(updates);
    var ordered := Drop(list, invocations) + last;
    OnesCount(ordered);
    var kept, excess := Retire(ordered, protected, One, |ordered|, MAX_PREDICTIONS);
    var bytes := TotalWeight(kept, Serialised(size));
    var total: int := OVERHEAD + bytes;
    if total > MAX_BYTES {
      kept, total := Retire(kept, protected, Serialised(size), total, MAX_BYTES);
      if total > MAX_BYTES {
        return Err(TooManyPredictions);
      }
    } else {
      NothingRetired(kept, protected, Serialised(size), total, MAX_BYTES);
    }
    return Ok(kept);
  }
}
