/** A task run: its baseline, what it records, and its local commit. */
module Predictions {
  import opened Cache
  import opened Manifests
  import opened Merging

  const REFRESH_MARGIN: nat := MAX_PREDICTIONS / 16

  /** What the agent keeps of a run. `changed` holds the baseline's value of each changed invocation. */
  datatype RunState = RunState(
    loaded: bool,
    predictions: map<Digest, Prediction>,
    pending: map<Digest, Prediction>,
    changed: map<Digest, Option<Prediction>>)

  function Begun(baseline: map<Digest, Prediction>): RunState
  {
    RunState(true, baseline, map[], map[])
  }

  /** The state a recording makes for a run that was never begun. */
  const UNBEGUN := RunState(false, map[], map[], map[])

  // Recording.

  /** The changed invocations after one more recording. */
  function ChangedBy(state: RunState, p: Prediction): map<Digest, Option<Prediction>>
  {
    var current := Get(state.predictions, p.invocation);
    if current == Some(p) then state.changed
    else if p.invocation in state.changed then
      if state.changed[p.invocation] == Some(p) then state.changed - {p.invocation} else state.changed
    else state.changed[p.invocation := current]
  }

  /** `record_action_prediction`; `valid` is the verdict on the prediction's own shape. */
  function Recorded(state: RunState, p: Prediction, valid: bool): Outcome<RunState>
  {
    if !valid then Err(InvalidPrediction)
    else if p.invocation !in state.pending && |state.pending| >= MAX_PREDICTIONS then Err(TooManyPredictions)
    else Ok(RunState(
      state.loaded, state.predictions[p.invocation := p], state.pending[p.invocation := p], ChangedBy(state, p)))
  }

  class TaskRun {
    var loaded: bool
    var predictions: map<Digest, Prediction>
    var pending: map<Digest, Prediction>
    var changed: map<Digest, Option<Prediction>>

    ghost function State(): RunState
      reads this
    {
      RunState(loaded, predictions, pending, changed)
    }

    constructor (baseline: map<Digest, Prediction>)
      ensures State() == Begun(baseline)
    {
      loaded, predictions, pending, changed := true, baseline, map[], map[];
    }

    method Record(p: Prediction, valid: bool) returns (r: Outcome<()>)
      modifies this
      ensures match Recorded(old(State()), p, valid)
              case Ok(after) => r.Ok? && State() == after
              case Err(e) => r == Err(e) && State() == old(State())
    {
      if !valid {
        return Err(InvalidPrediction);
      }
      if p.invocation !in pending && |pending| >= MAX_PREDICTIONS {
        return Err(TooManyPredictions);
      }
      var current := Get(predictions, p.invocation);
      if current != Some(p) {
        if p.invocation in changed {
          if changed[p.invocation] == Some(p) {
            changed := changed - {p.invocation};
          }
        } else {
          changed := changed[p.invocation := current];
        }
      }
      predictions := predictions[p.invocation := p];
      pending := pending[p.invocation := p];
      return Ok(());
    }
  }

  ghost predicate Keyed(m: map<Digest, Prediction>)
  {
    forall i :: i in m ==> m[i].invocation == i
  }

  /**
    What the run's state says of an invocation: its current value is the one
    recorded, or else the baseline's, and it counts as changed exactly when
    that is not the baseline's, which is then remembered.
   */
  ghost predicate TracksAt(baseline: map<Digest, Prediction>, state: RunState, i: Digest)
  {
    && Get(state.predictions, i) == (if i in state.pending then Some(state.pending[i]) else Get(baseline, i))
    && (i in state.pending ==> state.pending[i].invocation == i)
    && (i in state.changed <==> Get(state.predictions, i) != Get(baseline, i))
    && (i in state.changed ==> state.changed[i] == Get(baseline, i))
  }

  ghost predicate Tracks(baseline: map<Digest, Prediction>, state: RunState)
  {
    |state.pending| <= MAX_PREDICTIONS && forall i :: TracksAt(baseline, state, i)
  }

  lemma RecordingIsBounded(state: RunState, p: Prediction)
    requires |state.pending| <= MAX_PREDICTIONS && Recorded(state, p, true).Ok?
    ensures |Recorded(state, p, true).value.pending| <= MAX_PREDICTIONS
  {
    var after := state.pending[p.invocation := p];
    assert after.Keys == state.pending.Keys + {p.invocation};
    if p.invocation in state.pending {
      assert after.Keys == state.pending.Keys;
    }
  }

  lemma RecordingTracks(baseline: map<Digest, Prediction>, state: RunState, p: Prediction)
    requires Tracks(baseline, state) && Recorded(state, p, true).Ok?
    ensures Tracks(baseline, Recorded(state, p, true).value)
  {
    RecordingIsBounded(state, p);
    forall i ensures TracksAt(baseline, Recorded(state, p, true).value, i) {
      assert TracksAt(baseline, state, i);
    }
  }

  /** The state after a sequence of recordings; a refused one leaves no trace. */
  function After(state: RunState, recordings: seq<(Prediction, bool)>): RunState
    decreases |recordings|
  {
    if recordings == [] then state else
    var before := After(state, recordings[..|recordings| - 1]);
    var (p, valid) := recordings[|recordings| - 1];
    match Recorded(before, p, valid)
    case Ok(after) => after
    case Err(_) => before
  }

  /** After any recordings, `changed` is the difference from the baseline, with the baseline's values. */
  lemma {:induction false} RecordingsTrack(baseline: map<Digest, Prediction>, recordings: seq<(Prediction, bool)>)
    ensures Tracks(baseline, After(Begun(baseline), recordings))
  {
    if recordings != [] {
      var before := After(Begun(baseline), recordings[..|recordings| - 1]);
      RecordingsTrack(baseline, recordings[..|recordings| - 1]);
      var (p, valid) := recordings[|recordings| - 1];
      if Recorded(before, p, valid).Ok? {
        RecordingTracks(baseline, before, p);
      }
    }
  }

  // The parts of a commit.

  /** The baseline's value of an invocation, as the run remembers it. */
  function Remembered(state: RunState, i: Digest): Option<Prediction>
  {
    if i in state.changed then state.changed[i] else Get(state.predictions, i)
  }

  /** `concurrent_task_predictions` on a loaded manifest, whose invocations are distinct. */
  function Concurrent(disk: seq<Prediction>, state: RunState): map<Digest, Prediction>
  {
    map i | i in Index(disk) && Remembered(state, i) != Some(Index(disk)[i]) :: Index(disk)[i]
  }

  /** Concurrent changes are exactly the disk's differences from the baseline the run began with. */
  lemma ConcurrentIsTheDifference(baseline: map<Digest, Prediction>, state: RunState, disk: seq<Prediction>)
    requires Tracks(baseline, state)
    ensures Concurrent(disk, state)
         == map i | i in Index(disk) && Get(baseline, i) != Some(Index(disk)[i]) :: Index(disk)[i]
  {
    forall i ensures Remembered(state, i) == Get(baseline, i) {
      assert TracksAt(baseline, state, i);
    }
  }

  /** `effective_task_updates`: an unchanged hit stands for whatever the disk holds. */
  function Effective(disk: seq<Prediction>, state: RunState): map<Digest, Prediction>
  {
    map i | i in state.pending ::
      if i in state.changed || i !in Index(disk) then state.pending[i] else Index(disk)[i]
  }

  /** The invocations the reverse walk adds to `have`, until the bound is reached. */
  function Required(disk: seq<Prediction>, have: set<Digest>, concurrent: set<Digest>): set<Digest>
  {
    if disk == [] || |have| == MAX_PREDICTIONS then have else
    var last := disk[|disk| - 1].invocation;
    Required(disk[..|disk| - 1], if last in concurrent then have + {last} else have, concurrent)
  }

  /** `required_local_predictions`. */
  method RequireLocal(disk: seq<Prediction>, updates: map<Digest, Prediction>, concurrent: map<Digest, Prediction>)
    returns (required: set<Digest>)
    ensures required == Required(disk, updates.Keys, concurrent.Keys)
  {
    required := updates.Keys;
    var k := |disk|;
    assert disk[..k] == disk;
    while k > 0
      invariant 0 <= k <= |disk|
      invariant Required(disk, updates.Keys, concurrent.Keys) == Required(disk[..k], required, concurrent.Keys)
    {
      if |required| == MAX_PREDICTIONS {
        return;
      }
      k := k - 1;
      assert disk[..k + 1][..k] == disk[..k];
      if disk[k].invocation in concurrent {
        required := required + {disk[k].invocation};
      }
    }
  }

  /**
    The whole working set is required, then the newest concurrent changes: all
    of them, or as many as reach the bound.
   */
  lemma {:induction false} RequiredIsNewest(disk: seq<Prediction>, have: set<Digest>, concurrent: set<Digest>)
    returns (k: nat)
    requires |have| <= MAX_PREDICTIONS
    ensures k <= |disk|
    ensures Required(disk, have, concurrent) == have + Invocations(disk[k..]) * concurrent
    ensures |Required(disk, have, concurrent)| <= MAX_PREDICTIONS
    ensures k == 0 || |Required(disk, have, concurrent)| == MAX_PREDICTIONS
  {
    if disk == [] || |have| == MAX_PREDICTIONS {
      k := |disk|;
      assert disk[k..] == [];
    } else {
      var front, last := disk[..|disk| - 1], disk[|disk| - 1];
      var more := if last.invocation in concurrent then have + {last.invocation} else have;
      k := RequiredIsNewest(front, more, concurrent);
      NewestFirst(disk, k);
      assert more + Invocations(front[k..]) * concurrent == have + Invocations(disk[k..]) * concurrent;
    }
  }

  lemma NewestFirst(disk: seq<Prediction>, k: nat)
    requires k < |disk|
    ensures Invocations(disk[k..]) == Invocations(disk[..|disk| - 1][k..]) + {disk[|disk| - 1].invocation}
  {
    var front, last := disk[..|disk| - 1], disk[|disk| - 1];
    assert disk[k..] == front[k..] + [last];
    InvocationsAppend(front[k..], [last]);
  }

  // Maps are walked in the order of their keys.

  ghost predicate IsLeast(s: set<Digest>, m: Digest)
  {
    m in s && forall x :: x in s ==> m <= x
  }

  lemma {:induction false} HasLeast(s: set<Digest>) returns (least: Digest)
    requires s != {}
    ensures IsLeast(s, least)
  {
    var m :| m in s;
    var rest := s - {m};
    assert forall x :: x in s ==> x == m || x in rest;
    if rest == {} {
      least := m;
    } else {
      var n := HasLeast(rest);
      least := if n < m then n else m;
    }
  }

  function Least(s: set<Digest>): (m: Digest)
    requires s != {}
    ensures m in s && forall x :: x in s ==> m <= x
  {
    assert exists m :: IsLeast(s, m) by {
      var least := HasLeast(s);
      assert IsLeast(s, least);
    }
    var m :| m in s && forall x :: x in s ==> m <= x;
    m
  }

  function Listed(m: map<Digest, Prediction>): seq<Prediction>
    decreases |m.Keys|
  {
    if m.Keys == {} then [] else
    var first := Least(m.Keys);
    assert (m - {first}).Keys == m.Keys - {first};
    [m[first]] + Listed(m - {first})
  }

  lemma Less(m: map<Digest, Prediction>, first: Digest)
    requires Keyed(m) && first in m
    ensures Keyed(m - {first}) && (m - {first}).Keys == m.Keys - {first}
    ensures m == map[first := m[first]] + (m - {first})
  {
  }

  lemma {:induction false} ListedFacts(m: map<Digest, Prediction>)
    requires Keyed(m)
    ensures Index(Listed(m)) == m && Invocations(Listed(m)) == m.Keys && Distinct(Listed(m))
    decreases |m.Keys|
  {
    if m.Keys == {} {
      assert m == map[];
    } else {
      var first := Least(m.Keys);
      Less(m, first);
      ListedFacts(m - {first});
      Cons(m[first], Listed(m - {first}));
      assert ([m[first]] + Listed(m - {first}))[1..] == Listed(m - {first});
    }
  }

  // The local half of a commit.

  /** Whether a commit has nothing to write: `needed` is an outstanding first publication. */
  predicate Quiet(state: RunState, needed: bool)
  {
    && state.changed == map[]
    && !(state.pending != map[] && |state.predictions| >= MAX_PREDICTIONS - REFRESH_MARGIN)
    && !needed
  }

  function Protected(disk: seq<Prediction>, state: RunState): set<Digest>
  {
    Required(disk, Effective(disk, state).Keys, Concurrent(disk, state).Keys)
  }

  /** The manifest a commit writes over the one on disk. */
  function Committed(disk: seq<Prediction>, state: RunState, size: Size): Outcome<seq<Prediction>>
  {
    match Updated(disk, Listed(Effective(disk, state)), Protected(disk, state), size)
    case Err(e) => Err(e)
    case Ok(list) => if Validates(list) then Ok(list) else Err(InvalidManifest)
  }

  /** The local half of a commit, under the manifest lock, as it runs. */
  method CommitLocal(disk: seq<Prediction>, state: RunState, size: Size) returns (r: Outcome<seq<Prediction>>)
    ensures r == Committed(disk, state, size)
  {
    var concurrent, effective := Concurrent(disk, state), Effective(disk, state);
    var required := RequireLocal(disk, effective, concurrent);
    r := UpdateInOrder(disk, Listed(effective), required, size);
    if r.Ok? && !Validates(r.value) {
      return Err(InvalidManifest);
    }
  }

  lemma EffectiveFacts(baseline: map<Digest, Prediction>, disk: seq<Prediction>, state: RunState)
    requires Tracks(baseline, state)
    ensures Index(Listed(Effective(disk, state))) == Effective(disk, state)
    ensures Invocations(Listed(Effective(disk, state))) == state.pending.Keys
    ensures Distinct(Listed(Effective(disk, state)))
  {
    IndexFacts(disk);
    forall i | i in state.pending ensures state.pending[i].invocation == i {
      assert TracksAt(baseline, state, i);
    }
    ListedFacts(Effective(disk, state));
  }

  lemma ProtectedFacts(disk: seq<Prediction>, state: RunState)
    requires |state.pending| <= MAX_PREDICTIONS
    ensures state.pending.Keys <= Protected(disk, state) && |Protected(disk, state)| <= MAX_PREDICTIONS
  {
    var have := Effective(disk, state).Keys;
    assert have == state.pending.Keys;
    var k := RequiredIsNewest(disk, have, Concurrent(disk, state).Keys);
  }

  /**
    What a commit does to one invocation. Everything the run recorded is on disk
    afterwards: with the run's value when that differs from its baseline, and
    otherwise with the value the disk held. What the run did not record keeps
    its value or is retired, and is retired only when not everything fits.
   */
  ghost predicate HonestAt(
    baseline: map<Digest, Prediction>, state: RunState, disk: seq<Prediction>, after: seq<Prediction>, roomy: bool,
    i: Digest)
  {
    && (i in state.changed ==> Get(Index(after), i) == Get(state.predictions, i))
    && (i in state.pending && i !in state.changed ==>
          Get(Index(after), i) == (if i in Index(disk) then Get(Index(disk), i) else Get(baseline, i)))
    && (i !in state.pending && (roomy || i in Index(after)) ==> Get(Index(after), i) == Get(Index(disk), i))
  }

  lemma CommitIsHonest(
    baseline: map<Digest, Prediction>, state: RunState, disk: seq<Prediction>, size: Size, i: Digest)
    requires Tracks(baseline, state) && Validates(disk) && Committed(disk, state, size).Ok?
    ensures Validates(Committed(disk, state, size).value)
    ensures HonestAt(baseline, state, disk, Committed(disk, state, size).value,
                     Fits(Ordered(disk, Listed(Effective(disk, state))), size), i)
  {
    var effective := Effective(disk, state);
    EffectiveFacts(baseline, disk, state);
    ProtectedFacts(disk, state);
    UpdatedValues(disk, Listed(effective), Protected(disk, state), size);
    assert TracksAt(baseline, state, i);
    assert Get(Index(disk) + effective, i) == if i in effective then Some(effective[i]) else Get(Index(disk), i);
  }

  /** What a commit cannot give up: the newest concurrent changes it has room for, then its own working set. */
  function Indispensable(disk: seq<Prediction>, state: RunState): seq<Prediction>
  {
    Keep(Drop(disk, state.pending.Keys), Protected(disk, state)) + Listed(Effective(disk, state))
  }

  /** A commit succeeds exactly when what it cannot give up is small enough. */
  lemma CommitSucceeds(baseline: map<Digest, Prediction>, state: RunState, disk: seq<Prediction>, size: Size)
    requires Tracks(baseline, state) && Validates(disk)
    ensures Committed(disk, state, size).Ok? <==> Bytes(Indispensable(disk, state), size) <= MAX_BYTES
  {
    var updates, protected := Listed(Effective(disk, state)), Protected(disk, state);
    EffectiveFacts(baseline, disk, state);
    ProtectedFacts(disk, state);
    UpdatedIsFirstFit(disk, updates, protected, size);
    LastOfDistinct(updates);
    KeepAppends(Drop(disk, state.pending.Keys), updates, protected);
    KeepAll(updates, protected);
    OrderedFacts(disk, updates);
    KeepInvocations(Ordered(disk, updates), protected);
    DistinctCount(Indispensable(disk, state), protected);
    if Updated(disk, updates, protected, size).Ok? {
      UpdatedValues(disk, updates, protected, size);
    }
  }
}
