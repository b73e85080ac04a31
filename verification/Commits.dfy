/**
  Any number of runs of one task over one manifest file. Loading, committing and
  reconciling each happen under the manifest lock, so each is one step; a run
  begins some time after its manifest was loaded, perhaps in the place of another,
  and runs record in between, in any order.
 */
module Commits {
  import opened Cache
  import opened Manifests
  import opened Merging
  import opened Predictions

  type Run = nat

  /** `baselines` remembers what each live run began with; no step looks at it. */
  datatype World = World(
    disk: Option<seq<Prediction>>,
    loads: map<Run, map<Digest, Prediction>>,
    runs: map<Run, RunState>,
    baselines: map<Run, map<Digest, Prediction>>)

  datatype Event =
    | Load(run: Run)
    | Begin(run: Run)
    | Record(run: Run, prediction: Prediction, valid: bool)
    | Commit(run: Run, publicationNeeded: bool)
    /** A remote or inherited manifest is brought in without losing a local value. */
    | Reconcile(remote: seq<Prediction>)

  /** The two operations on the file, and whether a commit has room for all it brings together. */
  datatype Store = Store(
    commit: (seq<Prediction>, RunState) -> Outcome<seq<Prediction>>,
    merge: (seq<Prediction>, seq<Prediction>) -> Outcome<seq<Prediction>>,
    roomy: (seq<Prediction>, RunState) -> bool)

  /** The agent's store; reconciling requires every local invocation. */
  function StoreOf(size: Size): Store
  {
    Store(
      (disk, state) => Committed(disk, state, size),
      (remote, local) => Merged(remote, local, Invocations(local), {}, size),
      (disk, state) => Fits(Ordered(disk, Listed(Effective(disk, state))), size))
  }

  ghost predicate CommitLaw(
    store: Store, disk: seq<Prediction>, state: RunState, baseline: map<Digest, Prediction>, i: Digest)
  {
    Tracks(baseline, state) && Validates(disk) && store.commit(disk, state).Ok? ==>
      && Validates(store.commit(disk, state).value)
      && HonestAt(baseline, state, disk, store.commit(disk, state).value, store.roomy(disk, state), i)
  }

  ghost predicate MergeLaw(store: Store, remote: seq<Prediction>, local: seq<Prediction>, i: Digest)
  {
    store.merge(remote, local).Ok? ==>
      && Validates(store.merge(remote, local).value)
      && (i in Index(local) ==> Get(Index(store.merge(remote, local).value), i) == Get(Index(local), i))
      && (i !in Index(local) && i in Index(store.merge(remote, local).value) ==>
            Get(Index(store.merge(remote, local).value), i) == Get(Index(remote), i))
  }

  /** What the arguments below use of a store. */
  ghost predicate Lawful(store: Store)
  {
    && (forall disk, state, baseline, i: Digest :: CommitLaw(store, disk, state, baseline, i))
    && (forall remote, local, i: Digest :: MergeLaw(store, remote, local, i))
  }

  lemma StoreIsLawful(size: Size)
    ensures Lawful(StoreOf(size))
  {
    forall disk, state, baseline, i: Digest ensures CommitLaw(StoreOf(size), disk, state, baseline, i) {
      if Tracks(baseline, state) && Validates(disk) && Committed(disk, state, size).Ok? {
        CommitIsHonest(baseline, state, disk, size, i);
      }
    }
    forall remote, local, i: Digest ensures MergeLaw(StoreOf(size), remote, local, i) {
      IndexFacts(local);
      if Merged(remote, local, Invocations(local), {}, size).Ok? {
        MergedValues(remote, local, Invocations(local), {}, size, i);
      }
    }
  }

  function Manifest(w: World): seq<Prediction>
  {
    if w.disk.Some? then w.disk.value else []
  }

  function Value(w: World, i: Digest): Option<Prediction>
  {
    Get(Index(Manifest(w)), i)
  }

  function WithRun(w: World, run: Run, state: RunState, baseline: map<Digest, Prediction>): World
  {
    w.(runs := w.runs[run := state], baselines := w.baselines[run := baseline])
  }

  function WithoutRun(w: World, run: Run): World
  {
    w.(runs := w.runs - {run}, baselines := w.baselines - {run})
  }

  function StateOf(w: World, run: Run): RunState
  {
    if run in w.runs then w.runs[run] else UNBEGUN
  }

  function BaselineOf(w: World, run: Run): map<Digest, Prediction>
  {
    if run in w.baselines then w.baselines[run] else map[]
  }

  function LoadedFor(w: World, run: Run): map<Digest, Prediction>
  {
    if run in w.loads then w.loads[run] else map[]
  }

  /** Whether a commit of the run would rewrite the manifest. */
  predicate Writes(w: World, run: Run, needed: bool, store: Store)
  {
    && StateOf(w, run).loaded
    && !Quiet(StateOf(w, run), needed)
    && store.commit(Manifest(w), StateOf(w, run)).Ok?
  }

  /** A commit that fails leaves the run in place. */
  function AfterCommit(w: World, run: Run, needed: bool, store: Store): World
  {
    var state := StateOf(w, run);
    if !state.loaded then w
    else if Quiet(state, needed) then WithoutRun(w, run)
    else if Writes(w, run, needed, store) then
      WithoutRun(w, run).(disk := Some(store.commit(Manifest(w), state).value))
    else w
  }

  function AfterReconcile(w: World, remote: seq<Prediction>, store: Store): World
  {
    match w.disk
    case None => w.(disk := Some(remote))
    case Some(local) =>
      match store.merge(remote, local)
      case Ok(merged) => w.(disk := Some(merged))
      case Err(_) => w
  }

  function Next(w: World, e: Event, store: Store): World
  {
    match e
    case Load(run) => w.(loads := w.loads[run := Index(Manifest(w))])
    case Begin(run) => WithRun(w, run, Begun(LoadedFor(w, run)), LoadedFor(w, run))
    case Record(run, p, valid) =>
      (match Recorded(StateOf(w, run), p, valid)
       case Ok(state) => WithRun(w, run, state, BaselineOf(w, run))
       case Err(_) => WithRun(w, run, StateOf(w, run), BaselineOf(w, run)))
    case Commit(run, needed) => AfterCommit(w, run, needed, store)
    case Reconcile(remote) => AfterReconcile(w, remote, store)
  }

  /** A run begins with what was loaded for it, and what is brought in was validated when it was read. */
  predicate Enabled(w: World, e: Event)
  {
    && (e.Begin? ==> e.run in w.loads)
    && (e.Reconcile? ==> Validates(e.remote))
  }

  ghost predicate History(worlds: seq<World>, events: seq<Event>, store: Store)
  {
    && |worlds| == |events| + 1
    && Inv(worlds[0])
    && (forall k :: 0 <= k < |events| ==> StepAt(worlds, events, store, k))
  }

  ghost predicate StepAt(worlds: seq<World>, events: seq<Event>, store: Store, k: nat)
    requires |worlds| == |events| + 1 && k < |events|
  {
    Enabled(worlds[k], events[k]) && worlds[k + 1] == Next(worlds[k], events[k], store)
  }

  /** The manifest is valid and every run tracks what it loaded. */
  ghost predicate Inv(w: World)
  {
    && Validates(Manifest(w))
    && w.baselines.Keys == w.runs.Keys
    && (forall run :: run in w.runs ==> Tracks(w.baselines[run], w.runs[run]))
  }

  lemma StateTracks(w: World, run: Run)
    requires Inv(w)
    ensures Tracks(BaselineOf(w, run), StateOf(w, run))
  {
  }

  lemma RunKeepsInv(w: World, run: Run, state: RunState, baseline: map<Digest, Prediction>)
    requires Inv(w) && Tracks(baseline, state)
    ensures Inv(WithRun(w, run, state, baseline))
  {
  }

  lemma CommitKeepsInv(w: World, run: Run, needed: bool, store: Store)
    requires Lawful(store) && Inv(w)
    ensures Inv(AfterCommit(w, run, needed, store))
  {
    StateTracks(w, run);
    assert CommitLaw(store, Manifest(w), StateOf(w, run), BaselineOf(w, run), 0);
  }

  lemma RecordKeepsInv(w: World, run: Run, p: Prediction, valid: bool, store: Store)
    requires Inv(w)
    ensures Inv(Next(w, Record(run, p, valid), store))
  {
    StateTracks(w, run);
    match Recorded(StateOf(w, run), p, valid)
    case Ok(state) =>
      RecordingTracks(BaselineOf(w, run), StateOf(w, run), p);
      RunKeepsInv(w, run, state, BaselineOf(w, run));
    case Err(_) =>
      RunKeepsInv(w, run, StateOf(w, run), BaselineOf(w, run));
  }

  lemma StepKeepsInv(w: World, e: Event, store: Store)
    requires Lawful(store) && Inv(w) && Enabled(w, e)
    ensures Inv(Next(w, e, store))
  {
    match e
    case Load(_) =>
    case Begin(run) =>
      RecordingsTrack(LoadedFor(w, run), []);
      RunKeepsInv(w, run, Begun(LoadedFor(w, run)), LoadedFor(w, run));
    case Record(run, p, valid) =>
      RecordKeepsInv(w, run, p, valid, store);
    case Commit(run, needed) =>
      CommitKeepsInv(w, run, needed, store);
    case Reconcile(remote) =>
      assert MergeLaw(store, remote, Manifest(w), 0);
  }

  lemma {:induction false} HistoryKeepsInv(worlds: seq<World>, events: seq<Event>, store: Store, k: nat)
    requires Lawful(store) && History(worlds, events, store) && k < |worlds|
    ensures Inv(worlds[k])
  {
    if k > 0 {
      HistoryKeepsInv(worlds, events, store, k - 1);
      assert StepAt(worlds, events, store, k - 1);
      StepKeepsInv(worlds[k - 1], events[k - 1], store);
    }
  }

  /** The step is a commit that writes a value of its own for `i`. */
  predicate Authors(w: World, e: Event, store: Store, i: Digest)
  {
    e.Commit? && Writes(w, e.run, e.publicationNeeded, store) && i in StateOf(w, e.run).changed
  }

  /** The step has room for everything it brings together. */
  predicate Roomy(w: World, e: Event, store: Store)
  {
    e.Commit? && Writes(w, e.run, e.publicationNeeded, store) ==>
      store.roomy(Manifest(w), StateOf(w, e.run))
  }

  /** Reconciling never changes or retires a local value. */
  lemma ReconcileKeepsValue(w: World, remote: seq<Prediction>, store: Store, i: Digest)
    requires Lawful(store) && Inv(w) && Validates(remote) && Value(w, i).Some?
    ensures Value(AfterReconcile(w, remote, store), i) == Value(w, i)
  {
    assert MergeLaw(store, remote, Manifest(w), i);
  }

  /**
    Only a run whose own value differs from its baseline changes a value on
    disk. Any other step leaves it or retires it, a run that hit the invocation
    does not even retire it, and nothing is retired while there is room.
   */
  lemma HitsNeverRevert(w: World, e: Event, store: Store, i: Digest)
    requires Lawful(store) && Inv(w) && Enabled(w, e) && Value(w, i).Some? && !Authors(w, e, store, i)
    ensures Value(Next(w, e, store), i) in {None, Value(w, i)}
    ensures Roomy(w, e, store) ==> Value(Next(w, e, store), i) == Value(w, i)
    ensures e.Commit? && i in StateOf(w, e.run).pending ==> Value(Next(w, e, store), i) == Value(w, i)
  {
    match e
    case Load(_) =>
    case Begin(_) =>
    case Record(_, _, _) =>
    case Commit(run, needed) =>
      if Writes(w, run, needed, store) {
        StateTracks(w, run);
        assert CommitLaw(store, Manifest(w), StateOf(w, run), BaselineOf(w, run), i);
      }
    case Reconcile(remote) =>
      ReconcileKeepsValue(w, remote, store, i);
  }

  /** An author's value differs from the one it loaded, and is on disk after its commit. */
  lemma AuthorsLand(w: World, e: Event, store: Store, i: Digest)
    requires Lawful(store) && Inv(w) && Enabled(w, e) && Authors(w, e, store, i)
    ensures Value(Next(w, e, store), i) == Get(StateOf(w, e.run).pending, i)
    ensures i in StateOf(w, e.run).pending && Get(StateOf(w, e.run).pending, i) != Get(BaselineOf(w, e.run), i)
  {
    StateTracks(w, e.run);
    assert TracksAt(BaselineOf(w, e.run), StateOf(w, e.run), i);
    assert CommitLaw(store, Manifest(w), StateOf(w, e.run), BaselineOf(w, e.run), i);
  }

  /** The effect of a history's step on a value it finds listed. */
  lemma EffectAt(worlds: seq<World>, events: seq<Event>, store: Store, i: Digest, k: nat)
    requires Lawful(store) && History(worlds, events, store) && k < |events| && Value(worlds[k], i).Some?
    ensures Authors(worlds[k], events[k], store, i) ==>
      && Value(worlds[k + 1], i) == Get(StateOf(worlds[k], events[k].run).pending, i)
      && Value(worlds[k + 1], i) != Get(BaselineOf(worlds[k], events[k].run), i)
      && Value(worlds[k + 1], i).Some?
    ensures !Authors(worlds[k], events[k], store, i) ==> Value(worlds[k + 1], i) in {None, Value(worlds[k], i)}
    ensures Roomy(worlds[k], events[k], store) ==> Value(worlds[k + 1], i).Some?
  {
    HistoryKeepsInv(worlds, events, store, k);
    assert StepAt(worlds, events, store, k);
    if Authors(worlds[k], events[k], store, i) {
      AuthorsLand(worlds[k], events[k], store, i);
    } else {
      HitsNeverRevert(worlds[k], events[k], store, i);
    }
  }

  ghost predicate ListedThroughout(worlds: seq<World>, i: Digest, a: nat, b: nat)
    requires b < |worlds|
  {
    forall k :: a <= k <= b ==> Value(worlds[k], i).Some?
  }

  /** The step is a commit of a run that had come to `v` for `i` from something else. */
  ghost predicate Wrote(w: World, e: Event, store: Store, i: Digest, v: Prediction)
  {
    && Authors(w, e, store, i)
    && Get(StateOf(w, e.run).pending, i) == Some(v) && Get(BaselineOf(w, e.run), i) != Some(v)
  }

  /**
    The step lists `i` again, which the disk had lost: a run that hit it puts its
    baseline's value back, or a manifest that is brought in has it.
   */
  ghost predicate Relisted(w: World, e: Event, store: Store, i: Digest, v: Prediction)
  {
    && Value(w, i).None?
    && ((e.Commit? && Writes(w, e.run, e.publicationNeeded, store)
         && i in StateOf(w, e.run).pending && i !in StateOf(w, e.run).changed
         && Get(BaselineOf(w, e.run), i) == Some(v))
        || (e.Reconcile? && Get(Index(e.remote), i) == Some(v)))
  }

  lemma Listing(w: World, e: Event, store: Store, i: Digest)
    requires Lawful(store) && Inv(w) && Enabled(w, e) && Value(w, i).None? && Value(Next(w, e, store), i).Some?
    requires !Authors(w, e, store, i)
    ensures Relisted(w, e, store, i, Value(Next(w, e, store), i).value)
  {
    match e
    case Commit(run, needed) =>
      StateTracks(w, run);
      assert CommitLaw(store, Manifest(w), StateOf(w, run), BaselineOf(w, run), i);
    case Reconcile(remote) =>
      assert MergeLaw(store, remote, Manifest(w), i);
    case _ =>
  }

  /** Where a value that was not there before a step comes from. */
  lemma SourceAt(worlds: seq<World>, events: seq<Event>, store: Store, i: Digest, k: nat)
    requires Lawful(store) && History(worlds, events, store) && k < |events|
    requires Value(worlds[k + 1], i).Some? && Value(worlds[k], i) != Value(worlds[k + 1], i)
    ensures Wrote(worlds[k], events[k], store, i, Value(worlds[k + 1], i).value)
         || Relisted(worlds[k], events[k], store, i, Value(worlds[k + 1], i).value)
  {
    HistoryKeepsInv(worlds, events, store, k);
    assert StepAt(worlds, events, store, k);
    if Authors(worlds[k], events[k], store, i) {
      AuthorsLand(worlds[k], events[k], store, i);
    } else if Value(worlds[k], i).None? {
      Listing(worlds[k], events[k], store, i);
    } else {
      HitsNeverRevert(worlds[k], events[k], store, i);
    }
  }

  /** The argument behind `LastWriterWins`, by induction on the end of the stretch. */
  lemma {:induction false} LastSource(
    worlds: seq<World>, events: seq<Event>, store: Store, i: Digest, a: nat, b: nat) returns (j: nat)
    requires Lawful(store) && History(worlds, events, store) && a <= b < |worlds|
    requires Value(worlds[b], i).Some? && Value(worlds[a], i) != Value(worlds[b], i)
    ensures a <= j < b && forall k :: j < k <= b ==> Value(worlds[k], i) == Value(worlds[b], i)
    ensures Wrote(worlds[j], events[j], store, i, Value(worlds[b], i).value)
         || Relisted(worlds[j], events[j], store, i, Value(worlds[b], i).value)
    decreases b
  {
    if Value(worlds[b - 1], i) == Value(worlds[b], i) {
      j := LastSource(worlds, events, store, i, a, b - 1);
    } else {
      j := b - 1;
      SourceAt(worlds, events, store, i, j);
    }
  }

  /** While there is room, what is listed stays listed. */
  lemma {:induction false} RoomKeepsListed(
    worlds: seq<World>, events: seq<Event>, store: Store, i: Digest, a: nat, b: nat)
    requires Lawful(store) && History(worlds, events, store) && a <= b < |worlds| && Value(worlds[a], i).Some?
    requires forall k :: a <= k < b ==> Roomy(worlds[k], events[k], store)
    ensures ListedThroughout(worlds, i, a, b)
  {
    if a < b {
      var c := b - 1;
      RoomKeepsListed(worlds, events, store, i, a, c);
      assert Roomy(worlds[c], events[c], store) && Value(worlds[c], i).Some?;
      EffectAt(worlds, events, store, i, c);
    }
  }

  /**
    The last real writer wins. A value that came to be different was committed by
    a run that had changed it to that from its baseline's, and has been that value
    since. The one exception is an invocation the disk had lost: listing it again
    brings back a baseline's or a remote value.
   */
  lemma LastWriterWins(
    worlds: seq<World>, events: seq<Event>, size: Size, i: Digest, a: nat, b: nat) returns (j: nat)
    requires History(worlds, events, StoreOf(size)) && a <= b < |worlds|
    requires Value(worlds[b], i).Some? && Value(worlds[a], i) != Value(worlds[b], i)
    ensures a <= j < b && forall k :: j < k <= b ==> Value(worlds[k], i) == Value(worlds[b], i)
    ensures Wrote(worlds[j], events[j], StoreOf(size), i, Value(worlds[b], i).value)
         || Relisted(worlds[j], events[j], StoreOf(size), i, Value(worlds[b], i).value)
    ensures ListedThroughout(worlds, i, a, b) ==>
      Wrote(worlds[j], events[j], StoreOf(size), i, Value(worlds[b], i).value)
  {
    StoreIsLawful(size);
    j := LastSource(worlds, events, StoreOf(size), i, a, b);
    assert ListedThroughout(worlds, i, a, b) ==> Value(worlds[j], i).Some?;
  }

  /**
    Cache hits cannot revert a concurrent change: while there is room and no
    commit in between is by a run that had itself changed the invocation, the
    disk's value of it stays what it is.
   */
  lemma UnchangedRunsKeepValues(
    worlds: seq<World>, events: seq<Event>, size: Size, i: Digest, a: nat, b: nat)
    requires History(worlds, events, StoreOf(size)) && a <= b < |worlds| && Value(worlds[a], i).Some?
    requires forall k :: a <= k < b ==> Roomy(worlds[k], events[k], StoreOf(size))
    requires forall k :: a <= k < b ==> !Authors(worlds[k], events[k], StoreOf(size), i)
    ensures Value(worlds[b], i) == Value(worlds[a], i)
  {
    StoreIsLawful(size);
    RoomKeepsListed(worlds, events, StoreOf(size), i, a, b);
    if Value(worlds[b], i) != Value(worlds[a], i) {
      var j := LastWriterWins(worlds, events, size, i, a, b);
      assert false;
    }
  }

  /** What makes a commit write: a change, a first publication, or hits whose order is about to matter. */
  ghost predicate Due(state: RunState, needed: bool)
  {
    || needed
    || (exists i: Digest :: i in state.changed)
    || (|state.predictions| + MAX_PREDICTIONS / 16 >= MAX_PREDICTIONS && exists i: Digest :: i in state.pending)
  }

  /**
    How a commit of a loaded run ends. One that is due and has room for what it
    cannot give up settles every invocation on disk; without that room it fails
    and everything stays as it was; and one that is not due ends the run alone.
   */
  ghost predicate EndsWell(w: World, t: World, e: Event, size: Size, i: Digest)
    requires e.Commit?
  {
    var state, disk := StateOf(w, e.run), Manifest(w);
    if !state.loaded then t == w
    else if !Due(state, e.publicationNeeded) then
      t.disk == w.disk && t.runs == w.runs - {e.run} && t.loads == w.loads
    else if Bytes(Indispensable(disk, state), size) > MAX_BYTES then t == w
    else
      && t.disk.Some? && t.runs == w.runs - {e.run} && t.loads == w.loads
      && HonestAt(BaselineOf(w, e.run), state, disk, Manifest(t),
                  Fits(Ordered(disk, Listed(Effective(disk, state))), size), i)
  }

  lemma QuietIsNotDue(state: RunState, needed: bool)
    ensures Quiet(state, needed) <==> !Due(state, needed)
  {
    assert state.changed != map[] ==> exists i: Digest :: i in state.changed by {
      assert state.changed != map[] ==> state.changed.Keys != {};
    }
    assert state.pending != map[] ==> exists i: Digest :: i in state.pending by {
      assert state.pending != map[] ==> state.pending.Keys != {};
    }
  }

  /** No commit of a history loses a change: it is on disk afterwards, or the run is still there with it. */
  lemma CommitsEndWell(worlds: seq<World>, events: seq<Event>, size: Size, i: Digest, k: nat)
    requires History(worlds, events, StoreOf(size)) && k < |events| && events[k].Commit?
    ensures EndsWell(worlds[k], worlds[k + 1], events[k], size, i)
    ensures var state := StateOf(worlds[k], events[k].run);
            state.loaded && i in state.changed ==>
              || Value(worlds[k + 1], i) == Get(state.predictions, i)
              || (Bytes(Indispensable(Manifest(worlds[k]), state), size) > MAX_BYTES && worlds[k + 1] == worlds[k])
  {
    var w, run := worlds[k], events[k].run;
    StoreIsLawful(size);
    HistoryKeepsInv(worlds, events, StoreOf(size), k);
    assert StepAt(worlds, events, StoreOf(size), k);
    StateTracks(w, run);
    QuietIsNotDue(StateOf(w, run), events[k].publicationNeeded);
    CommitSucceeds(BaselineOf(w, run), StateOf(w, run), Manifest(w), size);
    assert CommitLaw(StoreOf(size), Manifest(w), StateOf(w, run), BaselineOf(w, run), i);
  }
}
