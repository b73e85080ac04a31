/** Merging two snapshots of a task manifest, as publication and reconciliation do. */
module Merging {
  import opened Cache
  import opened Manifests

  /** The wire invariants of a manifest, the shape of single predictions aside. */
  predicate Validates(list: seq<Prediction>)
  {
    |list| <= MAX_PREDICTIONS && Distinct(list)
  }

  /** The update's invocations that may outrank the base. */
  function Preferred(
    base: seq<Prediction>, update: seq<Prediction>, required: set<Digest>, fallbacks: set<Digest>): set<Digest>
  {
    set p | p in update
         && (p.invocation in required
             || (p.invocation in fallbacks
                 && (p.invocation !in Index(base) || Index(base)[p.invocation] == p))) :: p.invocation
  }

  /** `merge_task_manifests`. */
  function Merged(
    base: seq<Prediction>, update: seq<Prediction>, required: set<Digest>, fallbacks: set<Digest>, size: Size)
    : Outcome<seq<Prediction>>
  {
    if !Validates(base) || !Validates(update) then Err(InvalidManifest) else
    var preferred := Preferred(base, update, required, fallbacks);
    var history := Drop(update, Invocations(base)) + base;
    match Updated(history, Keep(update, preferred), required + preferred, size)
    case Err(e) => Err(e)
    case Ok(list) => if Validates(list) then Ok(list) else Err(InvalidManifest)
  }

  /** Which value a merge gives an invocation that it keeps. */
  function Winner(base: seq<Prediction>, update: seq<Prediction>, required: set<Digest>, i: Digest): Option<Prediction>
  {
    if i in required && i in Index(update) then Some(Index(update)[i])
    else if i in Index(base) then Some(Index(base)[i])
    else Get(Index(update), i)
  }

  /** Before retirement, a merge overlays the two snapshots just so. */
  lemma OverlayIsWinner(
    base: seq<Prediction>, update: seq<Prediction>, required: set<Digest>, fallbacks: set<Digest>, i: Digest)
    requires Distinct(base) && Distinct(update)
    ensures
      var history := Drop(update, Invocations(base)) + base;
      var chosen := Keep(update, Preferred(base, update, required, fallbacks));
      && Distinct(history)
      && Get(Index(history) + Index(chosen), i) == Winner(base, update, required, i)
  {
    var preferred := Preferred(base, update, required, fallbacks);
    var alone := Drop(update, Invocations(base));
    var wanted := Invocations(update) - Invocations(base);
    IndexFacts(base);
    IndexFacts(update);
    IndexAppends(alone, base);
    IndexOfKeep(update, wanted);
    IndexOfKeep(update, preferred);
    KeepInvocations(update, wanted);
    InvocationsAppend(alone, base);
    PreferredFacts(base, update, required, fallbacks, i);
  }

  lemma PreferredFacts(
    base: seq<Prediction>, update: seq<Prediction>, required: set<Digest>, fallbacks: set<Digest>, i: Digest)
    requires Distinct(update)
    ensures i in Preferred(base, update, required, fallbacks) <==>
      i in Index(update)
      && (i in required || (i in fallbacks && (i !in Index(base) || Index(base)[i] == Index(update)[i])))
  {
    IndexFacts(update);
    if i in Index(update) {
      assert Index(update)[i] in update;
    }
    forall p | p in update && p.invocation == i ensures i in Index(update) && Index(update)[i] == p {
      IndexOfDistinct(update, p);
    }
  }

  /**
    A successful merge is valid and bounded; what it keeps has the winning
    value; and it keeps everything required or preferred.
   */
  lemma MergedValues(
    base: seq<Prediction>, update: seq<Prediction>, required: set<Digest>, fallbacks: set<Digest>, size: Size,
    i: Digest)
    requires Merged(base, update, required, fallbacks, size).Ok?
    ensures
      var merged := Merged(base, update, required, fallbacks, size).value;
      && Validates(merged) && Fits(merged, size)
      && (i in Index(merged) ==> Some(Index(merged)[i]) == Winner(base, update, required, i))
      && (i in required || i in Preferred(base, update, required, fallbacks) ==>
            Get(Index(merged), i) == Winner(base, update, required, i))
  {
    var preferred := Preferred(base, update, required, fallbacks);
    var history := Drop(update, Invocations(base)) + base;
    OverlayIsWinner(base, update, required, fallbacks, i);
    UpdatedValues(history, Keep(update, preferred), required + preferred, size);
  }

  /** A merge of two valid snapshots fails only when what it must keep does not fit. */
  lemma MergeSucceeds(
    base: seq<Prediction>, update: seq<Prediction>, required: set<Digest>, fallbacks: set<Digest>, size: Size)
    ensures Merged(base, update, required, fallbacks, size).Ok? <==>
      && Validates(base) && Validates(update)
      && |required + Preferred(base, update, required, fallbacks)| <= MAX_PREDICTIONS
      && Fits(Keep(Ordered(Drop(update, Invocations(base)) + base,
                           Keep(update, Preferred(base, update, required, fallbacks))),
                   required + Preferred(base, update, required, fallbacks)), size)
  {
    if Validates(base) && Validates(update) {
      var preferred := Preferred(base, update, required, fallbacks);
      var history, chosen := Drop(update, Invocations(base)) + base, Keep(update, preferred);
      OverlayIsWinner(base, update, required, fallbacks, 0);
      UpdatedIsFirstFit(history, chosen, required + preferred, size);
      if Updated(history, chosen, required + preferred, size).Ok? {
        UpdatedValues(history, chosen, required + preferred, size);
      }
    }
  }
}
