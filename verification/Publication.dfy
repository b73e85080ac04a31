/**
  Publishing a committed manifest: withholding what no upload or baseline
  vouches for, deciding what may outrank the remote, and the conditional put.
 */
module Publication {
  import opened Cache
  import opened Manifests
  import opened Merging
  import opened Predictions

  /** `unproven_task_predictions`: the invocations, with their actions, whose value is not the baseline's. */
  function Unproven(list: seq<Prediction>, remote: map<Digest, Prediction>): map<Digest, Digest>
  {
    map i | i in Index(list) && Get(remote, i) != Some(Index(list)[i]) :: Index(list)[i].action
  }

  /** `unpublished_task_actions`. */
  function Unpublished(unproven: set<Digest>, held: set<Digest>, failed: set<Digest>): set<Digest>
  {
    (unproven - held) + failed
  }

  /** `replaced_task_predictions`. */
  function Replaced(remote: map<Digest, Prediction>, candidates: set<Digest>): seq<Prediction>
  {
    Listed(map i | i in remote && i in candidates :: remote[i])
  }

  function Withheld(list: seq<Prediction>, candidates: set<Digest>, unpublished: set<Digest>): set<Digest>
  {
    set p | p in list && p.invocation in candidates && p.action in unpublished :: p.invocation
  }

  /** The withheld entries' previous values, newest of them first. */
  function Restored(replaced: seq<Prediction>, withheld: set<Digest>, retained: set<Digest>): seq<Prediction>
  {
    if replaced == [] then [] else
    var last := replaced[|replaced| - 1];
    var front := replaced[..|replaced| - 1];
    if last.invocation in withheld && last.invocation !in retained then
      [last] + Restored(front, withheld, retained + {last.invocation})
    else Restored(front, withheld, retained)
  }

  function AfterWithholding(
    list: seq<Prediction>, candidates: set<Digest>, replaced: seq<Prediction>, unpublished: set<Digest>)
    : seq<Prediction>
  {
    var withheld := Withheld(list, candidates, unpublished);
    var kept := Drop(list, withheld);
    kept + Restored(replaced, withheld, Invocations(kept))
  }

  class Manifest {
    var predictions: seq<Prediction>

    constructor (predictions: seq<Prediction>)
      ensures this.predictions == predictions
    {
      this.predictions := predictions;
    }

    /** `withhold_unpublished_updates`. */
    method Withhold(candidates: set<Digest>, replaced: seq<Prediction>, unpublished: set<Digest>)
      returns (withheld: set<Digest>)
      modifies this
      ensures withheld == Withheld(old(predictions), candidates, unpublished)
      ensures predictions == AfterWithholding(old(predictions), candidates, replaced, unpublished)
    {
      withheld := Withheld(predictions, candidates, unpublished);
      predictions := Drop(predictions, withheld);
      var retained := Invocations(predictions);
      ghost var kept := predictions;
      var k := |replaced|;
      assert replaced[..k] == replaced;
      while k > 0
        invariant 0 <= k <= |replaced|
        invariant predictions + Restored(replaced[..k], withheld, retained)
               == kept + Restored(replaced, withheld, Invocations(kept))
      {
        k := k - 1;
        assert replaced[..k + 1][..k] == replaced[..k];
        var previous := replaced[k];
        if previous.invocation in withheld && previous.invocation !in retained {
          retained := retained + {previous.invocation};
          ghost var rest := Restored(replaced[..k], withheld, retained);
          assert predictions + ([previous] + rest) == (predictions + [previous]) + rest;
          predictions := predictions + [previous];
        }
      }
      assert predictions + [] == predictions;
    }
  }

  // What withholding leaves.

  lemma {:induction false} RestoredAreDistinct(replaced: seq<Prediction>, withheld: set<Digest>, retained: set<Digest>)
    ensures Distinct(Restored(replaced, withheld, retained))
    ensures Invocations(Restored(replaced, withheld, retained)) !! retained
  {
    if replaced != [] {
      var last, front := replaced[|replaced| - 1], replaced[..|replaced| - 1];
      if last.invocation in withheld && last.invocation !in retained {
        RestoredAreDistinct(front, withheld, retained + {last.invocation});
        Cons(last, Restored(front, withheld, retained + {last.invocation}));
      } else {
        RestoredAreDistinct(front, withheld, retained);
      }
    }
  }

  lemma LastOf(list: seq<Prediction>, i: Digest)
    requires list != []
    ensures Get(Index(list), i)
         == if i == list[|list| - 1].invocation then Some(list[|list| - 1]) else Get(Index(list[..|list| - 1]), i)
  {
    var last, front := list[|list| - 1], list[..|list| - 1];
    assert list == front + [last];
    IndexAppends(front, [last]);
  }

  lemma FirstOf(p: Prediction, rest: seq<Prediction>, i: Digest)
    ensures Get(Index([p] + rest), i) == if i in Index(rest) then Get(Index(rest), i)
                                         else if i == p.invocation then Some(p) else None
  {
    assert ([p] + rest)[1..] == rest;
  }

  lemma {:induction false} RestoredValue(
    replaced: seq<Prediction>, withheld: set<Digest>, retained: set<Digest>, i: Digest)
    ensures Get(Index(Restored(replaced, withheld, retained)), i)
         == if i in withheld && i !in retained then Get(Index(replaced), i) else None
  {
    if replaced != [] {
      var last, front := replaced[|replaced| - 1], replaced[..|replaced| - 1];
      LastOf(replaced, i);
      if last.invocation in withheld && last.invocation !in retained {
        RestoredValue(front, withheld, retained + {last.invocation}, i);
        FirstOf(last, Restored(front, withheld, retained + {last.invocation}), i);
      } else {
        RestoredValue(front, withheld, retained, i);
      }
    }
  }

  lemma WithheldFacts(list: seq<Prediction>, candidates: set<Digest>, unpublished: set<Digest>, i: Digest)
    requires Distinct(list)
    ensures i in Withheld(list, candidates, unpublished) <==>
      i in Index(list) && i in candidates && Index(list)[i].action in unpublished
  {
    IndexFacts(list);
    if i in Index(list) {
      assert Index(list)[i] in list;
    }
    forall p | p in list && p.invocation == i ensures i in Index(list) && Index(list)[i] == p {
      IndexOfDistinct(list, p);
    }
  }

  /** Value by value, withholding removes what it withholds and puts the previous value in its place. */
  lemma WithholdingAt(
    list: seq<Prediction>, candidates: set<Digest>, replaced: seq<Prediction>, unpublished: set<Digest>, i: Digest)
    requires Distinct(list)
    ensures Distinct(AfterWithholding(list, candidates, replaced, unpublished))
    ensures Get(Index(AfterWithholding(list, candidates, replaced, unpublished)), i)
         == if i in Index(list) && i in candidates && Index(list)[i].action in unpublished
            then Get(Index(replaced), i) else Get(Index(list), i)
  {
    var withheld := Withheld(list, candidates, unpublished);
    var kept := Drop(list, withheld);
    var restored := Restored(replaced, withheld, Invocations(kept));
    WithheldFacts(list, candidates, unpublished, i);
    KeepInvocations(list, Invocations(list) - withheld);
    RestoredAreDistinct(replaced, withheld, Invocations(kept));
    InvocationsAppend(kept, restored);
    IndexFacts(list);
    IndexOfKeep(list, Invocations(list) - withheld);
    IndexAppends(kept, restored);
    RestoredValue(replaced, withheld, Invocations(kept), i);
  }

  // The publishing half of a commit.

  /**
    What publication starts from: the run, the values its remote baseline is
    known to have held, the remote snapshot to build on, and the upload queue's
    outcomes.
   */
  datatype Context = Context(
    state: RunState,
    remote: Option<map<Digest, Prediction>>,
    base: Option<seq<Prediction>>,
    held: set<Digest>,
    failed: set<Digest>)

  function Candidates(list: seq<Prediction>, c: Context): set<Digest>
  {
    match c.remote
    case Some(remote) => Unproven(list, remote).Keys
    case None => c.state.changed.Keys * Invocations(list)
  }

  function Previous(list: seq<Prediction>, c: Context): seq<Prediction>
  {
    match c.remote
    case Some(remote) => Replaced(remote, Unproven(list, remote).Keys)
    case None => []
  }

  function UnpublishedIn(list: seq<Prediction>, c: Context): set<Digest>
  {
    match c.remote
    case Some(remote) => Unpublished(Unproven(list, remote).Values, c.held, c.failed)
    case None =>
      var unproven := set p | p in list && p.invocation in c.state.changed.Keys * Invocations(list) :: p.action;
      Unpublished(unproven, c.held, c.failed)
  }

  /** What is left to advertise. */
  function Advertised(list: seq<Prediction>, c: Context): seq<Prediction>
  {
    AfterWithholding(list, Candidates(list, c), Previous(list, c), UnpublishedIn(list, c))
  }

  /** An upload by this queue that was seen to succeed. */
  predicate Uploaded(c: Context, action: Digest)
  {
    action in c.held && action !in c.failed
  }

  /**
    With a known baseline, an invocation is advertised with its value when the
    baseline held that very value or the queue uploaded its action, and
    otherwise with the baseline's value, if it had one.
   */
  lemma KnownBaseline(list: seq<Prediction>, c: Context, i: Digest)
    requires Distinct(list) && c.remote.Some? && Keyed(c.remote.value)
    ensures Distinct(Advertised(list, c))
    ensures Get(Index(Advertised(list, c)), i) ==
      if i !in Index(list) then None
      else if Get(c.remote.value, i) == Some(Index(list)[i]) || Uploaded(c, Index(list)[i].action)
      then Some(Index(list)[i])
      else Get(c.remote.value, i)
  {
    var remote := c.remote.value;
    var unproven := Unproven(list, remote);
    WithholdingAt(list, Candidates(list, c), Previous(list, c), UnpublishedIn(list, c), i);
    ListedFacts(map k | k in remote && k in unproven.Keys :: remote[k]);
    if i in unproven {
      assert unproven[i] in unproven.Values;
    }
  }

  /**
    With no known baseline, exactly the values this run changed and did not
    upload are left out; nothing else is touched.
   */
  lemma UnknownBaseline(list: seq<Prediction>, c: Context, i: Digest)
    requires Distinct(list) && c.remote.None?
    ensures Distinct(Advertised(list, c))
    ensures Get(Index(Advertised(list, c)), i) ==
      if i in Index(list) && i in c.state.changed && !Uploaded(c, Index(list)[i].action) then None
      else Get(Index(list), i)
  {
    WithholdingAt(list, Candidates(list, c), Previous(list, c), UnpublishedIn(list, c), i);
    IndexFacts(list);
    if i in Index(list) {
      assert Index(list)[i] in list;
    }
  }

  /** The part of `remote_publication_precedence` that outranks the remote. */
  function Authoritative(list: seq<Prediction>, c: Context, concurrent: map<Digest, Prediction>): set<Digest>
  {
    var published := Index(Advertised(list, c));
    var withheld := Withheld(list, Candidates(list, c), UnpublishedIn(list, c));
    set i | i in published && i !in withheld
         && ((i in c.state.pending && i in c.state.changed && c.state.pending[i] == published[i])
             || (i in concurrent && concurrent[i] == published[i]
                 && (c.remote.Some? || Uploaded(c, concurrent[i].action))))
  }

  /** The part that only fills gaps. */
  function GapFilling(list: seq<Prediction>, c: Context, concurrent: map<Digest, Prediction>): set<Digest>
  {
    var published := Index(Advertised(list, c));
    var withheld := Withheld(list, Candidates(list, c), UnpublishedIn(list, c));
    set i | i in published
         && (i in withheld
             || (i in c.state.pending && i !in c.state.changed)
             || (i in concurrent && c.remote.None? && !Uploaded(c, concurrent[i].action))
             || (c.remote.None? && c.base.Some? && i !in Invocations(c.base.value)))
  }

  // The conditional put.

  const ROUNDS: nat := 4

  /** The remote's answer to a put; a refusal comes with the manifest it holds now. */
  datatype Answer = Stored | Refused(now: Option<seq<Prediction>>) | Unreachable

  /** What is put next after a refusal. */
  function Retry(
    manifest: seq<Prediction>, now: Option<seq<Prediction>>, required: set<Digest>, fallbacks: set<Digest>, size: Size)
    : Outcome<seq<Prediction>>
  {
    match now
    case None => Ok(manifest)
    case Some(remote) => Merged(remote, manifest, required, fallbacks, size)
  }

  /** Each put but the first answers the refusal before it. */
  ghost predicate Conversation(
    first: seq<Prediction>, sent: seq<seq<Prediction>>, answers: nat -> Answer, required: set<Digest>,
    fallbacks: set<Digest>, size: Size)
  {
    && 0 < |sent| <= ROUNDS && sent[0] == first
    && (forall k: nat | k + 1 < |sent| :: Continues(sent, answers, required, fallbacks, size, k))
  }

  ghost predicate Continues(
    sent: seq<seq<Prediction>>, answers: nat -> Answer, required: set<Digest>, fallbacks: set<Digest>, size: Size,
    k: nat)
    requires k + 1 < |sent|
  {
    answers(k).Refused? && Retry(sent[k], answers(k).now, required, fallbacks, size) == Ok(sent[k + 1])
  }

  /** `put_remote_task_manifest`; `answers` are the remote's. */
  method PutRemote(
    first: seq<Prediction>, answers: nat -> Answer, required: set<Digest>, fallbacks: set<Digest>, size: Size)
    returns (r: Outcome<seq<Prediction>>, sent: seq<seq<Prediction>>)
    ensures Conversation(first, sent, answers, required, fallbacks, size)
    ensures r.Ok? <==> answers(|sent| - 1).Stored?
    ensures r.Ok? ==> r.value == sent[|sent| - 1]
    ensures answers(|sent| - 1).Refused? ==>
      |sent| == ROUNDS || Retry(sent[|sent| - 1], answers(|sent| - 1).now, required, fallbacks, size).Err?
  {
    var manifest := first;
    sent := [first];
    while true
      invariant Conversation(first, sent, answers, required, fallbacks, size) && manifest == sent[|sent| - 1]
      decreases ROUNDS - |sent|
    {
      var answer := answers(|sent| - 1);
      if answer.Stored? {
        return Ok(manifest), sent;
      }
      if answer.Unreachable? {
        return Err(RemoteFailed), sent;
      }
      var next := Retry(manifest, answer.now, required, fallbacks, size);
      if next.Err? {
        return Err(next.error), sent;
      }
      if |sent| == ROUNDS {
        return Err(ChangedTooOften), sent;
      }
      ghost var before := sent;
      manifest := next.value;
      sent := sent + [manifest];
      forall k: nat | k + 1 < |sent| ensures Continues(sent, answers, required, fallbacks, size, k) {
        if k + 1 < |before| {
          assert Continues(before, answers, required, fallbacks, size, k);
        }
      }
    }
  }

  /** The manifest first put: what is advertised, merged into the snapshot publication builds on. */
  function FirstPut(list: seq<Prediction>, c: Context, concurrent: map<Digest, Prediction>, size: Size)
    : Outcome<seq<Prediction>>
  {
    Retry(Advertised(list, c), c.base, Authoritative(list, c, concurrent), GapFilling(list, c, concurrent), size)
  }

  method WithholdUnproven(list: seq<Prediction>, c: Context) returns (manifest: seq<Prediction>)
    ensures manifest == Advertised(list, c)
  {
    var local := new Manifest(list);
    var withheld := local.Withhold(Candidates(list, c), Previous(list, c), UnpublishedIn(list, c));
    manifest := local.predictions;
  }

  /** The publishing half of a commit, as it runs. */
  method Publish(
    list: seq<Prediction>, c: Context, concurrent: map<Digest, Prediction>, answers: nat -> Answer, size: Size)
    returns (r: Outcome<seq<Prediction>>, sent: seq<seq<Prediction>>)
    ensures FirstPut(list, c, concurrent, size).Err? ==> r == FirstPut(list, c, concurrent, size) && sent == []
    ensures FirstPut(list, c, concurrent, size).Ok? ==>
      && Conversation(FirstPut(list, c, concurrent, size).value, sent, answers,
                      Authoritative(list, c, concurrent), GapFilling(list, c, concurrent), size)
      && (r.Ok? <==> answers(|sent| - 1).Stored?) && (r.Ok? ==> r.value == sent[|sent| - 1])
  {
    var manifest := WithholdUnproven(list, c);
    var required, fallbacks := Authoritative(list, c, concurrent), GapFilling(list, c, concurrent);
    var first := Retry(manifest, c.base, required, fallbacks, size);
    assert first == FirstPut(list, c, concurrent, size);
    if first.Err? {
      return first, [];
    }
    r, sent := PutRemote(first.value, answers, required, fallbacks, size);
  }

  // What reaches the remote.

  lemma RetryComesFrom(
    manifest: seq<Prediction>, now: Option<seq<Prediction>>, required: set<Digest>, fallbacks: set<Digest>, size: Size,
    p: Prediction)
    requires Retry(manifest, now, required, fallbacks, size).Ok?
    requires p in Retry(manifest, now, required, fallbacks, size).value
    ensures p in manifest || (now.Some? && p in now.value)
  {
    if now.Some? {
      var merged := Merged(now.value, manifest, required, fallbacks, size).value;
      MergedValues(now.value, manifest, required, fallbacks, size, p.invocation);
      IndexOfDistinct(merged, p);
      IndexFacts(manifest);
      IndexFacts(now.value);
    }
  }

  /** An entry of the manifest the remote held when it refused one of the first `k` puts. */
  ghost predicate Shown(answers: nat -> Answer, k: nat, p: Prediction)
  {
    exists j: nat :: j < k && answers(j).Refused? && answers(j).now.Some? && p in answers(j).now.value
  }

  lemma {:induction false} SentComesFrom(
    first: seq<Prediction>, sent: seq<seq<Prediction>>, answers: nat -> Answer, required: set<Digest>,
    fallbacks: set<Digest>, size: Size, k: nat, p: Prediction)
    requires Conversation(first, sent, answers, required, fallbacks, size) && k < |sent| && p in sent[k]
    ensures p in first || Shown(answers, k, p)
  {
    if k > 0 {
      var j: nat := k - 1;
      assert Continues(sent, answers, required, fallbacks, size, j);
      RetryComesFrom(sent[j], answers(j).now, required, fallbacks, size, p);
      if p in sent[j] {
        SentComesFrom(first, sent, answers, required, fallbacks, size, j, p);
      }
    }
  }

  /** The run can answer for the entry: its baseline held it, or its queue uploaded the action. */
  ghost predicate Vouched(c: Context, p: Prediction)
  {
    || Uploaded(c, p.action)
    || (if c.remote.Some? then Get(c.remote.value, p.invocation) == Some(p) else p.invocation !in c.state.changed)
  }

  lemma AdvertisedIsVouched(list: seq<Prediction>, c: Context, p: Prediction)
    requires Distinct(list) && (c.remote.Some? ==> Keyed(c.remote.value)) && p in Advertised(list, c)
    ensures Vouched(c, p)
  {
    if c.remote.Some? {
      KnownBaseline(list, c, p.invocation);
    } else {
      UnknownBaseline(list, c, p.invocation);
    }
    IndexOfDistinct(Advertised(list, c), p);
  }

  /**
    In every publication, against whatever the remote answers, every entry of
    every manifest put is one the run can answer for or one the remote itself
    was holding. With a known baseline that is: held by the baseline, uploaded
    by this queue, or the remote's own. With none: not changed by this run,
    uploaded, or the remote's own.
   */
  lemma PublishedIsVouched(
    list: seq<Prediction>, c: Context, concurrent: map<Digest, Prediction>, sent: seq<seq<Prediction>>,
    answers: nat -> Answer, size: Size, k: nat, p: Prediction)
    requires Distinct(list) && (c.remote.Some? ==> Keyed(c.remote.value))
    requires FirstPut(list, c, concurrent, size).Ok?
    requires Conversation(FirstPut(list, c, concurrent, size).value, sent, answers,
                          Authoritative(list, c, concurrent), GapFilling(list, c, concurrent), size)
    requires k < |sent| && p in sent[k]
    ensures Vouched(c, p) || (c.base.Some? && p in c.base.value) || Shown(answers, k, p)
  {
    var required, fallbacks := Authoritative(list, c, concurrent), GapFilling(list, c, concurrent);
    var first := FirstPut(list, c, concurrent, size).value;
    SentComesFrom(first, sent, answers, required, fallbacks, size, k, p);
    if p in first {
      RetryComesFrom(Advertised(list, c), c.base, required, fallbacks, size, p);
      if p in Advertised(list, c) {
        AdvertisedIsVouched(list, c, p);
      }
    }
  }

  /** A value is withheld exactly when the run cannot answer for it. */
  lemma WithheldIsNotVouched(list: seq<Prediction>, c: Context, i: Digest)
    requires Distinct(list)
    ensures i in Withheld(list, Candidates(list, c), UnpublishedIn(list, c)) <==>
      i in Index(list) && !Vouched(c, Index(list)[i])
  {
    WithheldFacts(list, Candidates(list, c), UnpublishedIn(list, c), i);
    IndexFacts(list);
    if i in Index(list) {
      assert Index(list)[i] in list;
      if c.remote.Some? && i in Unproven(list, c.remote.value) {
        assert Unproven(list, c.remote.value)[i] in Unproven(list, c.remote.value).Values;
      }
    }
  }

  /** The run came to the value itself, or found that another local run had. */
  ghost predicate LocalChange(c: Context, concurrent: map<Digest, Prediction>, p: Prediction)
  {
    || (p.invocation in c.state.changed && Get(c.state.pending, p.invocation) == Some(p))
    || (Get(concurrent, p.invocation) == Some(p) && (c.remote.Some? || Uploaded(c, p.action)))
  }

  /** Exactly the local changes that the run can answer for outrank the remote. */
  lemma AuthorityIsEarned(list: seq<Prediction>, c: Context, concurrent: map<Digest, Prediction>, i: Digest)
    requires Distinct(list) && (c.remote.Some? ==> Keyed(c.remote.value))
    ensures i in Authoritative(list, c, concurrent) <==>
      i in Index(list) && Vouched(c, Index(list)[i]) && LocalChange(c, concurrent, Index(list)[i])
    ensures i in Authoritative(list, c, concurrent) ==> Get(Index(Advertised(list, c)), i) == Get(Index(list), i)
  {
    WithholdingAt(list, Candidates(list, c), Previous(list, c), UnpublishedIn(list, c), i);
    WithheldFacts(list, Candidates(list, c), UnpublishedIn(list, c), i);
    WithheldIsNotVouched(list, c, i);
    IndexFacts(list);
    if c.remote.Some? {
      KnownBaseline(list, c, i);
    } else {
      UnknownBaseline(list, c, i);
    }
  }

  /**
    What only fills a gap: the baseline's value in place of one that was withheld,
    an unchanged hit, and, with no known baseline, another run's value that was not
    uploaded and whatever the snapshot to build on does not list.
   */
  ghost predicate FillsGap(c: Context, concurrent: map<Digest, Prediction>, p: Prediction)
  {
    var i := p.invocation;
    if !Vouched(c, p) then c.remote.Some? && i in c.remote.value
    else
      || (i in c.state.pending && i !in c.state.changed)
      || (c.remote.None? && i in concurrent && !Uploaded(c, concurrent[i].action))
      || (c.remote.None? && c.base.Some? && i !in Index(c.base.value))
  }

  lemma GapFillingIsExact(list: seq<Prediction>, c: Context, concurrent: map<Digest, Prediction>, i: Digest)
    requires Distinct(list) && (c.remote.Some? ==> Keyed(c.remote.value))
    ensures i in GapFilling(list, c, concurrent) <==>
      i in Index(list) && FillsGap(c, concurrent, Index(list)[i])
  {
    WithheldIsNotVouched(list, c, i);
    IndexFacts(list);
    if c.base.Some? {
      IndexFacts(c.base.value);
    }
    if c.remote.Some? {
      KnownBaseline(list, c, i);
    } else {
      UnknownBaseline(list, c, i);
    }
  }

  /**
    A value without authority never displaces one the remote shows: after a
    refusal, the next put has the remote's value of it, if any. This is what an
    unchanged hit amounts to.
   */
  lemma RemoteValueWins(
    first: seq<Prediction>, sent: seq<seq<Prediction>>, answers: nat -> Answer, required: set<Digest>,
    fallbacks: set<Digest>, size: Size, k: nat, i: Digest)
    requires Conversation(first, sent, answers, required, fallbacks, size) && k + 1 < |sent|
    requires answers(k).Refused? && answers(k).now.Some? && i in Index(answers(k).now.value) && i !in required
    ensures Get(Index(sent[k + 1]), i) in {None, Get(Index(answers(k).now.value), i)}
  {
    assert Continues(sent, answers, required, fallbacks, size, k);
    MergedValues(answers(k).now.value, sent[k], required, fallbacks, size, i);
  }

  lemma RetryKeepsAuthority(
    manifest: seq<Prediction>, now: Option<seq<Prediction>>, required: set<Digest>, fallbacks: set<Digest>, size: Size,
    i: Digest)
    requires Retry(manifest, now, required, fallbacks, size).Ok? && i in required && i in Index(manifest)
    ensures Get(Index(Retry(manifest, now, required, fallbacks, size).value), i) == Get(Index(manifest), i)
  {
    if now.Some? {
      MergedValues(now.value, manifest, required, fallbacks, size, i);
    }
  }

  /** A value with authority is in every put with that value, whatever the remote shows. */
  lemma {:induction false} AuthorityPersists(
    first: seq<Prediction>, sent: seq<seq<Prediction>>, answers: nat -> Answer, required: set<Digest>,
    fallbacks: set<Digest>, size: Size, k: nat, i: Digest)
    requires Conversation(first, sent, answers, required, fallbacks, size) && k < |sent|
    requires i in required && i in Index(first)
    ensures Get(Index(sent[k]), i) == Get(Index(first), i)
  {
    if k > 0 {
      var j: nat := k - 1;
      AuthorityPersists(first, sent, answers, required, fallbacks, size, j, i);
      assert Continues(sent, answers, required, fallbacks, size, j);
      RetryKeepsAuthority(sent[j], answers(j).now, required, fallbacks, size, i);
    }
  }

  /**
    No local change is lost: a committed value that the run, or another local run,
    came to and that this run can answer for is in every put of every publication,
    whatever the snapshot it builds on holds and whatever the remote answers.
   */
  lemma LocalChangesArePublished(
    list: seq<Prediction>, c: Context, concurrent: map<Digest, Prediction>, sent: seq<seq<Prediction>>,
    answers: nat -> Answer, size: Size, k: nat, i: Digest)
    requires Distinct(list) && (c.remote.Some? ==> Keyed(c.remote.value))
    requires FirstPut(list, c, concurrent, size).Ok?
    requires Conversation(FirstPut(list, c, concurrent, size).value, sent, answers,
                          Authoritative(list, c, concurrent), GapFilling(list, c, concurrent), size)
    requires i in Index(list) && Vouched(c, Index(list)[i]) && LocalChange(c, concurrent, Index(list)[i])
    requires k < |sent|
    ensures Get(Index(sent[k]), i) == Get(Index(list), i)
  {
    var required, fallbacks := Authoritative(list, c, concurrent), GapFilling(list, c, concurrent);
    AuthorityIsEarned(list, c, concurrent, i);
    RetryKeepsAuthority(Advertised(list, c), c.base, required, fallbacks, size, i);
    AuthorityPersists(FirstPut(list, c, concurrent, size).value, sent, answers, required, fallbacks, size, k, i);
  }

  /** A remote snapshot leaves room for `p`: it has nothing else for the invocation. */
  ghost predicate Admits(now: Option<seq<Prediction>>, p: Prediction)
  {
    now.Some? ==> Get(Index(now.value), p.invocation) in {None, Some(p)}
  }

  lemma RetryFillsGap(
    manifest: seq<Prediction>, now: Option<seq<Prediction>>, required: set<Digest>, fallbacks: set<Digest>, size: Size,
    p: Prediction)
    requires Retry(manifest, now, required, fallbacks, size).Ok? && p.invocation in fallbacks
    requires Get(Index(manifest), p.invocation) == Some(p) && Admits(now, p)
    ensures Get(Index(Retry(manifest, now, required, fallbacks, size).value), p.invocation) == Some(p)
  {
    if now.Some? {
      MergedValues(now.value, manifest, required, fallbacks, size, p.invocation);
      PreferredFacts(now.value, manifest, required, fallbacks, p.invocation);
    }
  }

  /** A gap-filling value is in every put until the remote shows another value of the invocation. */
  lemma {:induction false} GapsAreFilled(
    first: seq<Prediction>, sent: seq<seq<Prediction>>, answers: nat -> Answer, required: set<Digest>,
    fallbacks: set<Digest>, size: Size, k: nat, p: Prediction)
    requires Conversation(first, sent, answers, required, fallbacks, size) && k < |sent|
    requires p.invocation in fallbacks && Get(Index(first), p.invocation) == Some(p)
    requires forall j: nat | j < k :: answers(j).Refused? ==> Admits(answers(j).now, p)
    ensures Get(Index(sent[k]), p.invocation) == Some(p)
  {
    if k > 0 {
      var j: nat := k - 1;
      GapsAreFilled(first, sent, answers, required, fallbacks, size, j, p);
      assert Continues(sent, answers, required, fallbacks, size, j);
      RetryFillsGap(sent[j], answers(j).now, required, fallbacks, size, p);
    }
  }

  /** A hit that the run can answer for reaches the remote unless the remote shows another value of it. */
  lemma GapFillersArePublished(
    list: seq<Prediction>, c: Context, concurrent: map<Digest, Prediction>, sent: seq<seq<Prediction>>,
    answers: nat -> Answer, size: Size, k: nat, p: Prediction)
    requires Distinct(list) && (c.remote.Some? ==> Keyed(c.remote.value))
    requires FirstPut(list, c, concurrent, size).Ok?
    requires Conversation(FirstPut(list, c, concurrent, size).value, sent, answers,
                          Authoritative(list, c, concurrent), GapFilling(list, c, concurrent), size)
    requires Get(Index(list), p.invocation) == Some(p) && Vouched(c, p) && FillsGap(c, concurrent, p)
    requires k < |sent| && Admits(c.base, p)
    requires forall j: nat | j < k :: answers(j).Refused? ==> Admits(answers(j).now, p)
    ensures Get(Index(sent[k]), p.invocation) == Some(p)
  {
    var required, fallbacks := Authoritative(list, c, concurrent), GapFilling(list, c, concurrent);
    GapFillingIsExact(list, c, concurrent, p.invocation);
    if c.remote.Some? {
      KnownBaseline(list, c, p.invocation);
    } else {
      UnknownBaseline(list, c, p.invocation);
    }
    RetryFillsGap(Advertised(list, c), c.base, required, fallbacks, size, p);
    GapsAreFilled(FirstPut(list, c, concurrent, size).value, sent, answers, required, fallbacks, size, k, p);
  }
}
