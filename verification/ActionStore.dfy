/**
  `store_inner` and the slot-using eviction sweep, run by any number of
  processes against one action record, on top of the slot protocol.

  The objects a record names live elsewhere and come and go, so which of them
  are present is part of the world and may change at any step. An intactness
  walk is not atomic: it finds the objects present one by one, and reports the
  record intact once it has found them all, or broken the moment it finds one
  missing. Objects are content addressed, so the set a record names is fixed.
 */
module ActionStore {
  import opened Cache
  import Slots = ActionSlots

  type Pid = Slots.Pid
  type Inode = Slots.Inode

  const MAX_ATTEMPTS: nat := 8

  datatype Outcome = Stored | Unchanged | KeptExisting | Conflict | Evicted | Failed | GaveUp

  /** What `decide` concludes about the record it was shown. */
  datatype Verdict = Same | Intact | Restorable | Broken | Unrestorable
  {
    function Settles(): Option<Outcome> {
      match this
      case Same => Some(Unchanged)
      case Intact => Some(Conflict)
      case Restorable => Some(KeptExisting)
      case Broken => None
      case Unrestorable => None
    }
  }

  datatype Why = WasVacant | Unparseable | Judged(existing: ActionResult, verdict: Verdict)

  datatype Phase =
    | Start
    | LookUp
    | DecideFree(existing: ActionResult, found: set<Digest>)
    | Claiming
    | DecideHeld(existing: ActionResult, found: set<Digest>)
    | Writing(why: Why)
    | Finish(outcome: Outcome)
    | Done(outcome: Outcome)

  datatype Kind = Storing(result: ActionResult, keepExisting: bool) | Evicting

  datatype Job = Job(kind: Kind, attempt: nat, phase: Phase)

  datatype World = World(present: set<Digest>, unrestorable: set<(Pid, ActionResult)>)

  /** `names` gives the objects a result needs: its action, its metadata and its whole output tree. */
  datatype System = System(
    action: Digest,
    names: ActionResult -> set<Digest>,
    slots: Slots.State,
    world: World,
    jobs: map<Pid, Job>,
    removed: nat)
  {
    /** The record the path holds, if it holds a usable one. */
    function Current(): Option<ActionResult> {
      if slots.path.Some? && slots.path.value in slots.content
      then ParseRecord(slots.content[slots.path.value], action)
      else None
    }

    predicate Intact(r: ActionResult) { names(r) <= world.present }

    function At(p: Pid): Slots.Pc { slots.PcOf(p) }

    function Parsed(i: Inode): Option<ActionResult> {
      if i in slots.content then ParseRecord(slots.content[i], action) else None
    }

    function In(p: Pid, phase: Phase): System
      requires p in jobs
    {
      this.(jobs := jobs[p := jobs[p].(phase := phase)])
    }
  }

  datatype Act =
    | Begin(kind: Kind)
    | Preflight(ok: bool)
    | Look(hit: bool)
    | Find(digest: Digest)
    | Judge(verdict: Verdict)
    | SlotOp(op: Slots.Op)
    | Read
    | Write(staged: Inode)
    | Leave
    | Fail
    | Environment(world: World)

  /** When `decide` may reach a verdict on `r` for a storing job whose walk found `found`. */
  ghost predicate Reaches(s: System, p: Pid, kind: Kind, r: ActionResult, found: set<Digest>, v: Verdict)
  {
    && kind.Storing?
    && match v
       case Same => r == kind.result
       case Intact => r != kind.result && !kind.keepExisting && s.names(r) <= found
       case Restorable =>
         r != kind.result && kind.keepExisting && s.names(r) <= found && (p, r) !in s.world.unrestorable
       case Broken => r != kind.result && !s.Intact(r)
       case Unrestorable =>
         r != kind.result && kind.keepExisting && s.names(r) <= found && (p, r) in s.world.unrestorable
  }

  /** The part of a step that the slot protocol sees. */
  function Visible(s: System, p: Pid, act: Act): Slots.Op
  {
    if p !in s.jobs then Slots.Pause else
    var job := s.jobs[p];
    match act
    case Preflight(ok) => if ok && job.kind.Evicting? then Slots.Claim else Slots.Pause
    case Look(hit) => if hit then Slots.Pause else Slots.Claim
    case Judge(v) => if job.phase.DecideFree? && v.Settles().None? then Slots.Claim else Slots.Pause
    case SlotOp(op) => op
    case Write(n) =>
      if s.At(p).Vacant? && job.kind.Storing? then Slots.Publish(n, Canonical(job.kind.result))
      else if job.kind.Storing? then Slots.Replace(n, Canonical(job.kind.result))
      else Slots.Remove
    case Leave => Slots.Drop
    case Fail => Slots.Drop
    case _ => Slots.Pause
  }

  /** Where a store goes when publishing into a vacant slot found it taken. */
  function Retry(job: Job): Job
  {
    if job.attempt + 1 < MAX_ATTEMPTS then job.(attempt := job.attempt + 1, phase := LookUp)
    else job.(attempt := job.attempt + 1, phase := Done(GaveUp))
  }

  /** The job's side of a step. */
  ghost predicate JobStep(s: System, t: System, p: Pid, act: Act)
    requires p in s.jobs
  {
    var job := s.jobs[p];
    match act
    case Preflight(ok) =>
      && job.phase.Start?
      && (ok && job.kind.Storing? ==> job.kind.result.version == 1 && job.kind.result.action == s.action)
      && t.jobs == s.In(p, if !ok then Done(Failed) else if job.kind.Storing? then LookUp else Claiming).jobs
    case Look(hit) =>
      // a record that is missing, unreadable or unparseable is claimed
      && job.phase.LookUp?
      && (hit ==> s.Current().Some?)
      && t.jobs == s.In(p, if hit then DecideFree(s.Current().value, {}) else Claiming).jobs
    case Find(d) =>
      && (job.phase.DecideFree? || job.phase.DecideHeld?)
      && d in s.names(job.phase.existing) && d in s.world.present
      && t.jobs == s.In(p, job.phase.(found := job.phase.found + {d})).jobs
    case Judge(v) =>
      && (job.phase.DecideFree? || job.phase.DecideHeld?)
      && Reaches(s, p, job.kind, job.phase.existing, job.phase.found, v)
      && t.jobs == s.In(p, match v.Settles()
                           case Some(o) => Finish(o)
                           case None => if job.phase.DecideFree? then Claiming
                                        else Writing(Judged(job.phase.existing, v))).jobs
    case SlotOp(op) =>
      // an occupied or vacant slot ends the claim; a busy lock ends a non-blocking one
      && job.phase.Claiming?
      && (op.Open? || op.Lock? || op.Check? || (op.TryLockBusy? && job.kind.Evicting?))
      && t.jobs == (if op.TryLockBusy? then s.In(p, Done(Failed)).jobs else s.jobs)
    case Read =>
      && job.phase.Claiming?
      && (match s.At(p)
         case Vacant =>
           t.jobs == s.In(p, if job.kind.Storing? then Writing(WasVacant) else Finish(Failed)).jobs
         case Occupied(i) =>
           && (job.kind.Storing? ==>
                 t.jobs == s.In(p, match s.Parsed(i)
                                   case Some(r) => DecideHeld(r, {})
                                   case None => Writing(Unparseable)).jobs)
           && (job.kind.Evicting? ==>
                 // a sweep removes only a record that names a missing object; it may read one no store would
                 || t.jobs == s.In(p, Finish(Failed)).jobs
                 || (s.Parsed(i).None? && t.jobs == s.In(p, Writing(Unparseable)).jobs)
                 || (&& s.Parsed(i).Some? && !s.Intact(s.Parsed(i).value)
                     && t.jobs == s.In(p, Writing(Judged(s.Parsed(i).value, Broken))).jobs))
         case _ => false)
    case Write(n) =>
      && job.phase.Writing?
      && t.jobs == (if job.kind.Evicting? then s.In(p, Finish(Evicted)).jobs
                    else if s.At(p).Vacant? && s.slots.path.Some? then s.jobs[p := Retry(job)]
                    else s.In(p, Finish(Stored)).jobs)
    case Leave =>
      job.phase.Finish? && t.jobs == s.In(p, Done(job.phase.outcome)).jobs
    case Fail =>
      // an I/O error or a crash; the kernel releases the lock
      !job.phase.Done? && t.jobs == s.In(p, Done(Failed)).jobs
    case _ => false
  }

  ghost predicate Step(s: System, t: System, p: Pid, act: Act)
  {
    match act
    case Environment(w) =>
      t == s.(world := w)
    case Begin(kind) =>
      (p in s.jobs ==> s.jobs[p].phase.Done?) && t == s.(jobs := s.jobs[p := Job(kind, 0, Start)])
    case _ =>
      && p in s.jobs
      && JobStep(s, t, p, act)
      && Slots.Step(s.slots, t.slots, p, Visible(s, p, act))
      && t.world == s.world
      && t.action == s.action && t.names == s.names
      && t.removed == s.removed + (if Visible(s, p, act).Remove? then 1 else 0)
  }

  ghost predicate Init(s: System) { Slots.Init(s.slots) && s.jobs == map[] && s.removed == 0 }

  /** The phase of a job agrees with the claim its process is in. */
  ghost predicate JobOk(s: System, p: Pid)
  {
    if p !in s.jobs then s.At(p).Idle? else
    var job := s.jobs[p];
    && (job.kind.Storing? && !job.phase.Start? && !job.phase.Done? && !job.phase.Finish? ==>
          job.kind.result.version == 1 && job.kind.result.action == s.action)
    && match job.phase
       case Claiming => !s.At(p).Spent?
       case DecideHeld(r, _) => job.kind.Storing? && s.At(p).Occupied? && s.Parsed(s.At(p).inode) == Some(r)
       case Writing(why) =>
         (match why
          case WasVacant => s.At(p).Vacant? && job.kind.Storing?
          case Unparseable => s.At(p).Occupied? && s.Parsed(s.At(p).inode) == None
          case Judged(r, v) =>
            && s.At(p).Occupied? && s.Parsed(s.At(p).inode) == Some(r)
            && v.Settles().None?
            && (job.kind.Storing? ==> r != job.kind.result))
       case Finish(_) => true
       case _ => s.At(p).Idle?
  }

  ghost predicate Inv(s: System)
  {
    && Slots.Inv(s.slots)
    && (forall p :: JobOk(s, p))
  }

  /** A step leaves the other processes' jobs and claims alone, and every record file in use as it was. */
  lemma StepFrame(s: System, t: System, p: Pid, act: Act)
    requires Inv(s) && Step(s, t, p, act)
    ensures t.action == s.action && t.names == s.names
    ensures forall q :: q != p ==> Get(t.jobs, q) == Get(s.jobs, q) && t.At(q) == s.At(q)
    ensures forall i :: !s.slots.Free(i) ==> t.Parsed(i) == s.Parsed(i)
  {
  }

  lemma OwnStepKeepsJob(s: System, t: System, p: Pid, act: Act)
    requires Inv(s) && Step(s, t, p, act)
    ensures JobOk(t, p)
  {
    assert JobOk(s, p);
    assert Slots.ClaimOk(s.slots, p);
    match act
    case Judge(v) =>
    case Read =>
    case Write(n) =>
    case SlotOp(op) =>
    case Fail =>
    case _ =>
  }

  lemma StepKeepsJobs(s: System, t: System, p: Pid, act: Act, q: Pid)
    requires Inv(s) && Step(s, t, p, act)
    ensures JobOk(t, q)
  {
    StepFrame(s, t, p, act);
    if p == q {
      OwnStepKeepsJob(s, t, p, act);
    } else {
      assert JobOk(s, q);
      assert Slots.ClaimOk(s.slots, q);
      assert q in s.jobs ==> s.jobs[q] == Get(s.jobs, q).value == Get(t.jobs, q).value == t.jobs[q];
    }
  }

  lemma StepKeepsInv(s: System, t: System, p: Pid, act: Act)
    requires Inv(s) && Step(s, t, p, act)
    ensures Inv(t)
  {
    if !act.Environment? && !act.Begin? {
      Slots.StepKeepsInv(s.slots, t.slots, p, Visible(s, p, act));
    }
    forall q ensures JobOk(t, q) { StepKeepsJobs(s, t, p, act, q); }
  }

  datatype Event = Event(pid: Pid, act: Act)

  ghost predicate Run(states: seq<System>, events: seq<Event>)
  {
    && |states| == |events| + 1
    && Init(states[0])
    && forall k :: 0 <= k < |events| ==> StepAt(states, events, k)
  }

  ghost predicate StepAt(states: seq<System>, events: seq<Event>, k: nat)
    requires k < |events| < |states|
  {
    Step(states[k], states[k + 1], events[k].pid, events[k].act)
  }

  lemma {:induction false} RunKeepsInv(states: seq<System>, events: seq<Event>, k: nat)
    requires Run(states, events) && k < |states|
    ensures Inv(states[k])
  {
    if k > 0 {
      RunKeepsInv(states, events, k - 1);
      assert StepAt(states, events, k - 1);
      StepKeepsInv(states[k - 1], states[k], events[k - 1].pid, events[k - 1].act);
    }
  }

  function SlotStates(states: seq<System>): seq<Slots.State>
  {
    seq(|states|, k requires 0 <= k < |states| => states[k].slots)
  }

  function SlotEvents(states: seq<System>, events: seq<Event>): seq<Slots.Event>
    requires |states| == |events| + 1
  {
    seq(|events|, k requires 0 <= k < |events| =>
      Slots.Event(events[k].pid,
        if events[k].act.Environment? || events[k].act.Begin? then Slots.Pause
        else Visible(states[k], events[k].pid, events[k].act)))
  }

  /** Stores and sweeps use the record only through slots, so every slot theorem holds of them. */
  lemma RefinesSlots(states: seq<System>, events: seq<Event>)
    requires Run(states, events)
    ensures Slots.Run(SlotStates(states), SlotEvents(states, events))
  {
    forall k | 0 <= k < |events| ensures Slots.StepAt(SlotStates(states), SlotEvents(states, events), k) {
      assert StepAt(states, events, k);
    }
  }

  /** The finding that entitles process `p` to overwrite inode `i`, made in state `s`. */
  ghost predicate Justified(s: System, p: Pid, kind: Kind, i: Inode)
  {
    match s.Parsed(i)
    case None => true
    case Some(r) =>
      || (!s.Intact(r) && (kind.Storing? ==> r != kind.result))
      || (kind.Storing? && r != kind.result && kind.keepExisting && (p, r) in s.world.unrestorable)
  }

  /** Throughout [j, k] process `p` works on the same job and holds the slot on `i`, which stays current. */
  ghost predicate SameClaim(states: seq<System>, p: Pid, kind: Kind, i: Inode, j: nat, k: nat)
    requires j <= k < |states|
  {
    forall m :: j <= m <= k ==> HoldsCurrent(states[m], p, kind, i)
  }

  ghost predicate HoldsCurrent(s: System, p: Pid, kind: Kind, i: Inode)
  {
    p in s.jobs && s.jobs[p].kind == kind && s.At(p) == Slots.Occupied(i) && s.slots.path == Some(i)
  }

  ghost predicate About(s: System, p: Pid)
  {
    p in s.jobs && s.jobs[p].phase.Writing? && !s.jobs[p].phase.why.WasVacant?
  }

  /** The step that decides to write is the one that made the finding. */
  lemma DecidingStep(s: System, t: System, p: Pid, act: Act)
    requires Inv(s) && Step(s, t, p, act) && !act.Environment? && About(t, p)
    ensures t.At(p).Occupied? && HoldsCurrent(s, p, t.jobs[p].kind, t.At(p).inode)
    ensures HoldsCurrent(t, p, t.jobs[p].kind, t.At(p).inode)
    ensures Justified(s, p, t.jobs[p].kind, t.At(p).inode)
  {
    assert JobOk(s, p) && Slots.ClaimOk(s.slots, p);
    assert act.Judge? || act.Read?;
  }

  /** Another process's step changes neither the job nor the claim of `p`. */
  lemma OtherStep(s: System, t: System, q: Pid, act: Act, p: Pid)
    requires Inv(s) && Step(s, t, q, act) && (q != p || act.Environment?)
    ensures Get(t.jobs, p) == Get(s.jobs, p) && t.At(p) == s.At(p)
    ensures p in t.jobs ==> p in s.jobs && s.jobs[p] == t.jobs[p]
  {
    StepFrame(s, t, q, act);
    assert p in t.jobs ==> Get(t.jobs, p) == Some(t.jobs[p]);
  }

  lemma {:induction false} WritingIsJustified(states: seq<System>, events: seq<Event>, k: nat, p: Pid) returns (j: nat)
    requires Run(states, events) && k < |states| && About(states[k], p)
    ensures states[k].At(p).Occupied? && j < k
    ensures SameClaim(states, p, states[k].jobs[p].kind, states[k].At(p).inode, j, k)
    ensures Justified(states[j], p, states[k].jobs[p].kind, states[k].At(p).inode)
  {
    RunKeepsInv(states, events, k - 1);
    assert StepAt(states, events, k - 1);
    if events[k - 1].pid == p && !events[k - 1].act.Environment? {
      j := k - 1;
      DecidingStep(states[k - 1], states[k], p, events[k - 1].act);
    } else {
      OtherStep(states[k - 1], states[k], events[k - 1].pid, events[k - 1].act, p);
      j := WritingIsJustified(states, events, k - 1, p);
      RunKeepsInv(states, events, k);
      assert Slots.ClaimOk(states[k].slots, p);
    }
  }

  /** Step `k` puts another record over, or takes away, the record at the path. */
  ghost predicate Overwrites(states: seq<System>, k: nat)
    requires k + 1 < |states|
  {
    states[k].slots.path.Some? && states[k + 1].slots.path != states[k].slots.path
  }

  /**
    Every overwrite is made by the process that holds the slot on the record
    still current at that moment, and that process found the record unusable
    earlier in the same claim. Nobody else touched the path in between.
   */
  lemma OverwriteIsJustified(states: seq<System>, events: seq<Event>, k: nat) returns (j: nat)
    requires Run(states, events) && k < |events| && Overwrites(states, k)
    ensures j < k && events[k].act.Write? && events[k].pid in states[k].jobs
    ensures SameClaim(states, events[k].pid, states[k].jobs[events[k].pid].kind, states[k].slots.path.value, j, k)
    ensures Justified(states[j], events[k].pid, states[k].jobs[events[k].pid].kind, states[k].slots.path.value)
    ensures states[k].jobs[events[k].pid].kind.Storing? ==>
              states[k + 1].Current() == Some(states[k].jobs[events[k].pid].kind.result)
    ensures states[k].jobs[events[k].pid].kind.Evicting? ==> states[k + 1].slots.path.None?
  {
    RefinesSlots(states, events);
    Slots.PathChangesOnlyByItsHolder(SlotStates(states), SlotEvents(states, events), k);
    assert StepAt(states, events, k);
    RunKeepsInv(states, events, k);
    assert JobOk(states[k], events[k].pid);
    j := WritingIsJustified(states, events, k, events[k].pid);
  }

  /** Inode `i` is what the path names from `c` to `b`, so it is one record throughout. */
  ghost predicate CurrentThroughout(states: seq<System>, i: Inode, c: nat, b: nat)
    requires b < |states|
  {
    forall m :: c <= m <= b ==> states[m].slots.path == Some(i)
  }

  /** An overwritten record was unusable at some moment since which it has been current. */
  lemma OverwrittenWasBad(states: seq<System>, events: seq<Event>, k: nat) returns (j: nat)
    requires Run(states, events) && k < |events| && Overwrites(states, k)
    ensures j < k && CurrentThroughout(states, states[k].slots.path.value, j, k)
    ensures !GoodNow(states[j], states[k].slots.path.value)
  {
    j := OverwriteIsJustified(states, events, k);
    forall m | j <= m <= k ensures states[m].slots.path == states[k].slots.path {
      assert HoldsCurrent(states[m], events[k].pid, states[k].jobs[events[k].pid].kind, states[k].slots.path.value);
    }
  }

  ghost predicate GoodNow(s: System, i: Inode)
  {
    && s.Parsed(i).Some?
    && s.Intact(s.Parsed(i).value)
    && forall p: Pid :: (p, s.Parsed(i).value) !in s.world.unrestorable
  }

  /** The record that is current at `c` became so at that step, or was there from the start. */
  ghost predicate BecameCurrent(states: seq<System>, i: Inode, c: nat)
    requires c < |states|
  {
    states[c].slots.path == Some(i) && (c == 0 || states[c - 1].slots.path != Some(i))
  }

  /** In every state since `c` in which `i` is current, its record is usable by everyone. */
  ghost predicate StaysGood(states: seq<System>, i: Inode, c: nat, b: nat)
    requires b < |states|
  {
    forall m :: c <= m <= b && states[m].slots.path == Some(i) ==> GoodNow(states[m], i)
  }

  /**
    A record that stays intact and restorable from the moment it became current
    is never replaced or removed, by any store or sweep, whatever records had its
    number before.
   */
  lemma {:induction false} GoodRecordIsKept(states: seq<System>, events: seq<Event>, i: Inode, c: nat, b: nat)
    requires Run(states, events) && c <= b < |states|
    requires BecameCurrent(states, i, c) && StaysGood(states, i, c, b)
    ensures CurrentThroughout(states, i, c, b)
  {
    if c < b {
      GoodRecordIsKept(states, events, i, c, b - 1);
      if states[b].slots.path != Some(i) {
        var j := OverwrittenWasBad(states, events, b - 1);
      }
    }
  }

  /** No call of process `p` begins between states `j` and `k`. */
  ghost predicate SameCall(events: seq<Event>, p: Pid, j: nat, k: nat)
    requires j <= k <= |events|
  {
    forall m :: j <= m < k ==> !(events[m].pid == p && events[m].act.Begin?)
  }

  /**
    After `before` removals the call of `p` began. A vacant claim is only reached
    again once the record that made the publish fail was removed, so every
    attempt after the first has a removal of its own.
   */
  ghost predicate AttemptsOk(s: System, p: Pid, before: nat)
  {
    && p in s.jobs && before <= s.removed
    && s.jobs[p].attempt <= s.removed - before + (if s.slots.path.Some? then 1 else 0)
    && (s.At(p).Vacant? ==> s.jobs[p].attempt <= s.removed - before)
  }

  lemma StepKeepsAttempts(s: System, t: System, p: Pid, act: Act, q: Pid, before: nat)
    requires Inv(s) && Step(s, t, p, act) && AttemptsOk(s, q, before) && !(p == q && act.Begin?)
    ensures AttemptsOk(t, q, before)
  {
    StepFrame(s, t, p, act);
    assert JobOk(s, p) && JobOk(s, q);
    assert Slots.ClaimOk(s.slots, p);
    assert Get(t.jobs, q).Some?;
  }

  /** Step `b` is the beginning of the call that process `p` is in, or has ended, in state `k`. */
  ghost predicate BeganAt(events: seq<Event>, p: Pid, b: nat, k: nat)
    requires k <= |events|
  {
    b < k && events[b].pid == p && events[b].act.Begin? && SameCall(events, p, b + 1, k)
  }

  lemma {:induction false} CallAttempts(states: seq<System>, events: seq<Event>, k: nat, p: Pid) returns (b: nat)
    requires Run(states, events) && k < |states| && p in states[k].jobs
    ensures BeganAt(events, p, b, k) && AttemptsOk(states[k], p, states[b].removed)
  {
    RunKeepsInv(states, events, k - 1);
    assert StepAt(states, events, k - 1);
    if events[k - 1].pid == p && events[k - 1].act.Begin? {
      b := k - 1;
    } else {
      StepFrame(states[k - 1], states[k], events[k - 1].pid, events[k - 1].act);
      assert Get(states[k].jobs, p).Some?;
      b := CallAttempts(states, events, k - 1, p);
      StepKeepsAttempts(states[k - 1], states[k], events[k - 1].pid, events[k - 1].act, p, states[b].removed);
    }
  }

  /** A store gives up only when records were removed under it: seven times during the call, for its eight attempts. */
  lemma GivingUpNeedsRemovals(states: seq<System>, events: seq<Event>, k: nat, p: Pid) returns (b: nat)
    requires Run(states, events) && k < |states|
    requires p in states[k].jobs && states[k].jobs[p].phase == Done(GaveUp)
    ensures BeganAt(events, p, b, k) && states[k].removed - states[b].removed >= MAX_ATTEMPTS - 1
  {
    b := CallAttempts(states, events, k, p);
    GaveUpAttempts(states, events, k, p);
  }

  lemma {:induction false} GaveUpAttempts(states: seq<System>, events: seq<Event>, k: nat, p: Pid)
    requires Run(states, events) && k < |states|
    requires p in states[k].jobs
    ensures states[k].jobs[p].phase == Done(GaveUp) ==> states[k].jobs[p].attempt == MAX_ATTEMPTS
    ensures states[k].jobs[p].phase == Finish(GaveUp) ==> false
    ensures states[k].jobs[p].phase != Done(GaveUp) ==> states[k].jobs[p].attempt < MAX_ATTEMPTS
  {
    RunKeepsInv(states, events, k - 1);
    assert StepAt(states, events, k - 1);
    if events[k - 1].pid == p && events[k - 1].act.Begin? {
    } else {
      if events[k - 1].pid != p {
        OtherStep(states[k - 1], states[k], events[k - 1].pid, events[k - 1].act, p);
      }
      GaveUpAttempts(states, events, k - 1, p);
    }
  }

  lemma OneBeginning(events: seq<Event>, p: Pid, b: nat, c: nat, k: nat)
    requires k <= |events| && BeganAt(events, p, b, k) && BeganAt(events, p, c, k)
    ensures b == c
  {
  }

  /** With fewer removals than that during the call, and so with none, a store does not give up. */
  lemma StoresAloneNeverGiveUp(states: seq<System>, events: seq<Event>, b: nat, k: nat, p: Pid)
    requires Run(states, events) && k < |states| && p in states[k].jobs
    requires BeganAt(events, p, b, k) && states[k].removed - states[b].removed < MAX_ATTEMPTS - 1
    ensures states[k].jobs[p].phase != Done(GaveUp)
  {
    var c := CallAttempts(states, events, k, p);
    OneBeginning(events, p, b, c, k);
    GaveUpAttempts(states, events, k, p);
  }

  predicate Deciding(phase: Phase) { phase.DecideFree? || phase.DecideHeld? }

  /** A decision starts from the record it read, and goes on by finding objects of that record. */
  lemma SeeingStep(s: System, t: System, p: Pid, act: Act)
    requires Inv(s) && Step(s, t, p, act) && !act.Environment?
    requires p in t.jobs && Deciding(t.jobs[p].phase)
    ensures !act.Begin?
    ensures !act.Find? ==> s.Current() == Some(t.jobs[p].phase.existing) && t.jobs[p].phase.found == {}
    ensures act.Find? ==>
              && act.digest in s.world.present && p in s.jobs && Deciding(s.jobs[p].phase)
              && t.jobs[p].phase.existing == s.jobs[p].phase.existing
              && t.jobs[p].phase.found == s.jobs[p].phase.found + {act.digest}
  {
    assert JobOk(s, p) && Slots.ClaimOk(s.slots, p);
    assert act.Look? || act.Read? || act.Find?;
  }

  ghost predicate PresentBetween(states: seq<System>, d: Digest, j: nat, k: nat)
    requires k < |states|
  {
    exists m :: j <= m <= k && d in states[m].world.present
  }

  /**
    The record a decision is about was current at some moment of the same call,
    and every object found since was present at some moment since.
   */
  lemma {:induction false} SeenWasCurrent(states: seq<System>, events: seq<Event>, k: nat, p: Pid) returns (j: nat)
    requires Run(states, events) && k < |states| && p in states[k].jobs && Deciding(states[k].jobs[p].phase)
    ensures j <= k && SameCall(events, p, j, k)
    ensures states[j].Current() == Some(states[k].jobs[p].phase.existing)
    ensures forall d :: d in states[k].jobs[p].phase.found ==> PresentBetween(states, d, j, k)
  {
    var s, t, act := states[k - 1], states[k], events[k - 1].act;
    RunKeepsInv(states, events, k - 1);
    assert StepAt(states, events, k - 1);
    if events[k - 1].pid == p && !act.Environment? {
      SeeingStep(s, t, p, act);
      if act.Find? {
        j := SeenWasCurrent(states, events, k - 1, p);
        assert act.digest in states[k - 1].world.present;
      } else {
        j := k - 1;
      }
    } else {
      OtherStep(s, t, events[k - 1].pid, act, p);
      j := SeenWasCurrent(states, events, k - 1, p);
    }
  }

  /**
    What a store's outcome says about the record at `j`, and about what the call
    found between then and `k`.
   */
  ghost predicate OutcomeTrueOf(states: seq<System>, p: Pid, j: nat, k: nat, kind: Kind, o: Outcome)
    requires kind.Storing? && j <= k < |states|
  {
    match o
    case Stored => states[j].Current() == Some(kind.result)
    case Unchanged => states[j].Current() == Some(kind.result)
    case KeptExisting =>
      kind.keepExisting && OtherWasIntact(states, j, k, kind.result)
      && RestorableBetween(states, p, states[j].Current().value, j, k)
    case Conflict => !kind.keepExisting && OtherWasIntact(states, j, k, kind.result)
    case _ => true
  }

  /** Another result's record was current, and each object it names was there at some moment since. */
  ghost predicate OtherWasIntact(states: seq<System>, j: nat, k: nat, result: ActionResult)
    requires j <= k < |states|
  {
    && states[j].Current().Some? && states[j].Current().value != result
    && forall d :: d in states[j].names(states[j].Current().value) ==> PresentBetween(states, d, j, k)
  }

  /** The caller `p` could restore the record at some moment between. */
  ghost predicate RestorableBetween(states: seq<System>, p: Pid, existing: ActionResult, j: nat, k: nat)
    requires k < |states|
  {
    exists m :: j <= m <= k && (p, existing) !in states[m].world.unrestorable
  }

  lemma LongerIsTrue(states: seq<System>, p: Pid, j: nat, k: nat, kind: Kind, o: Outcome)
    requires kind.Storing? && j <= k < k + 1 < |states| && OutcomeTrueOf(states, p, j, k, kind, o)
    ensures OutcomeTrueOf(states, p, j, k + 1, kind, o)
  {
    forall d | PresentBetween(states, d, j, k) ensures PresentBetween(states, d, j, k + 1) {
    }
  }

  /** How a storing job comes to an outcome: by a verdict, by leaving its slot, or by the write itself. */
  lemma SettlingStep(s: System, t: System, p: Pid, act: Act)
    requires Inv(s) && Step(s, t, p, act) && !act.Environment?
    requires p in t.jobs && t.jobs[p].kind.Storing? && (t.jobs[p].phase.Finish? || t.jobs[p].phase.Done?)
    ensures !act.Begin? && p in s.jobs && s.jobs[p].kind == t.jobs[p].kind
    ensures act.Leave? ==> s.jobs[p].phase == Finish(t.jobs[p].phase.outcome)
    ensures act.Judge? ==>
              && Deciding(s.jobs[p].phase)
              && act.verdict.Settles() == Some(t.jobs[p].phase.outcome)
              && Reaches(s, p, t.jobs[p].kind, s.jobs[p].phase.existing, s.jobs[p].phase.found, act.verdict)
    ensures !act.Leave? && !act.Judge? ==>
              t.jobs[p].phase.outcome in {Failed, GaveUp}
              || (t.jobs[p].phase.outcome == Stored && t.Current() == Some(t.jobs[p].kind.result))
  {
    assert JobOk(s, p) && Slots.ClaimOk(s.slots, p);
  }

  lemma {:induction false} NamesAreFixed(states: seq<System>, events: seq<Event>, k: nat)
    requires Run(states, events) && k < |states|
    ensures states[k].names == states[0].names
  {
    if k > 0 {
      NamesAreFixed(states, events, k - 1);
      assert StepAt(states, events, k - 1);
    }
  }

  lemma VerdictIsTrue(states: seq<System>, events: seq<Event>, k: nat, p: Pid, v: Verdict) returns (j: nat)
    requires Run(states, events) && k < |states| && p in states[k].jobs && Deciding(states[k].jobs[p].phase)
    requires Reaches(states[k], p, states[k].jobs[p].kind, states[k].jobs[p].phase.existing,
                     states[k].jobs[p].phase.found, v)
    requires v.Settles().Some?
    ensures j <= k && SameCall(events, p, j, k)
    ensures OutcomeTrueOf(states, p, j, k, states[k].jobs[p].kind, v.Settles().value)
  {
    j := SeenWasCurrent(states, events, k, p);
    NamesAreFixed(states, events, j);
    NamesAreFixed(states, events, k);
  }

  /**
    The reported outcome is true of some moment of the call: a stored or
    unchanged result was the current record, and a kept or conflicting one was a
    different record, every object of which the call then found present, and
    which, if kept, the caller found it could restore.
   */
  lemma {:induction false} OutcomeIsTrue(states: seq<System>, events: seq<Event>, k: nat, p: Pid) returns (j: nat)
    requires Run(states, events) && k < |states| && p in states[k].jobs && states[k].jobs[p].kind.Storing?
    requires states[k].jobs[p].phase.Finish? || states[k].jobs[p].phase.Done?
    ensures j <= k && SameCall(events, p, j, k)
    ensures OutcomeTrueOf(states, p, j, k, states[k].jobs[p].kind, states[k].jobs[p].phase.outcome)
  {
    var s, t, act := states[k - 1], states[k], events[k - 1].act;
    RunKeepsInv(states, events, k - 1);
    assert StepAt(states, events, k - 1);
    if events[k - 1].pid != p || act.Environment? {
      OtherStep(s, t, events[k - 1].pid, act, p);
      j := OutcomeIsTrue(states, events, k - 1, p);
      LongerIsTrue(states, p, j, k - 1, t.jobs[p].kind, t.jobs[p].phase.outcome);
    } else {
      SettlingStep(s, t, p, act);
      if act.Judge? {
        j := VerdictIsTrue(states, events, k - 1, p, act.verdict);
        LongerIsTrue(states, p, j, k - 1, t.jobs[p].kind, t.jobs[p].phase.outcome);
      } else if act.Leave? {
        j := OutcomeIsTrue(states, events, k - 1, p);
        LongerIsTrue(states, p, j, k - 1, t.jobs[p].kind, t.jobs[p].phase.outcome);
      } else {
        j := k;
      }
    }
  }

  // Every outcome has its cause.

  /** What a step of `p` that ends a store, or brings it to the end, can have been. */
  lemma EndingStep(s: System, t: System, p: Pid, act: Act)
    requires Inv(s) && Step(s, t, p, act) && !act.Environment?
    requires p in t.jobs && t.jobs[p].kind.Storing? && (t.jobs[p].phase.Finish? || t.jobs[p].phase.Done?)
    ensures act.Leave? || act.Judge? || act.Write? || act.Fail? || act == Preflight(false)
    ensures act.Leave? ==> p in s.jobs && s.jobs[p].phase == Finish(t.jobs[p].phase.outcome)
    ensures act.Leave? ==> s.jobs[p].kind == t.jobs[p].kind
    ensures act.Write? ==> t.jobs[p].phase.outcome == GaveUp || Installs(s, t, t.jobs[p].kind.result)
    ensures act.Write? ==> t.jobs[p].phase.outcome in {Stored, GaveUp}
    ensures act.Judge? ==> Leaves(s, act, p, t.jobs[p].kind, t.jobs[p].phase.outcome)
    ensures act.Fail? || act == Preflight(false) ==> t.jobs[p].phase.outcome == Failed
  {
    assert JobOk(s, p) && Slots.ClaimOk(s.slots, p);
  }

  /** The step puts a record of the result at the path, where it was not the record before. */
  ghost predicate Installs(s: System, t: System, result: ActionResult)
  {
    t.slots.path.Some? && t.slots.path != s.slots.path && t.Current() == Some(result)
  }

  /** A verdict on the record the call had read that lets the record stay, and why it may. */
  ghost predicate Leaves(s: System, act: Act, p: Pid, kind: Kind, o: Outcome)
  {
    && act.Judge? && kind.Storing? && p in s.jobs && Deciding(s.jobs[p].phase)
    && var r, found := s.jobs[p].phase.existing, s.jobs[p].phase.found;
    match o
    case Unchanged => r == kind.result
    case Conflict => r != kind.result && !kind.keepExisting && s.names(r) <= found
    case KeptExisting =>
      r != kind.result && kind.keepExisting && s.names(r) <= found && (p, r) !in s.world.unrestorable
    case _ => false
  }

  /** The event of `p`'s call that brought about the outcome `o` in state `k`. */
  ghost predicate Causes(states: seq<System>, events: seq<Event>, p: Pid, j: nat, kind: Kind, o: Outcome)
    requires j < |events| && |states| == |events| + 1 && kind.Storing?
  {
    && events[j].pid == p
    && match o
       case Stored => events[j].act.Write? && Installs(states[j], states[j + 1], kind.result)
       case Unchanged => Leaves(states[j], events[j].act, p, kind, o)
       case Conflict => Leaves(states[j], events[j].act, p, kind, o)
       case KeptExisting => Leaves(states[j], events[j].act, p, kind, o)
       case Failed => events[j].act.Fail? || events[j].act == Preflight(false)
       case GaveUp => events[j].act.Write? && states[j].slots.path.Some?
       case Evicted => false
  }

  lemma EndHasACause(s: System, t: System, p: Pid, act: Act, states: seq<System>, events: seq<Event>, j: nat)
    requires j < |events| && |states| == |events| + 1 && states[j] == s && states[j + 1] == t
    requires events[j] == Event(p, act) && Inv(s) && Step(s, t, p, act) && !act.Environment? && !act.Leave?
    requires p in t.jobs && t.jobs[p].kind.Storing? && (t.jobs[p].phase.Finish? || t.jobs[p].phase.Done?)
    ensures Causes(states, events, p, j, t.jobs[p].kind, t.jobs[p].phase.outcome)
  {
    EndingStep(s, t, p, act);
    assert JobOk(s, p) && Slots.ClaimOk(s.slots, p);
  }

  /**
    A store ends as it should: it fails only on an error of its own or a refused
    result, it is stored only by its own write, it gives up only on a path that
    another process filled, and it stops at another result's record only after
    finding every object of it, and then as a conflict, or, if it may keep what
    is there, because it can be restored.
   */
  lemma {:induction false} OutcomeHasACause(states: seq<System>, events: seq<Event>, k: nat, p: Pid) returns (j: nat)
    requires Run(states, events) && k < |states| && p in states[k].jobs && states[k].jobs[p].kind.Storing?
    requires states[k].jobs[p].phase.Finish? || states[k].jobs[p].phase.Done?
    ensures j < k && SameCall(events, p, j, k)
    ensures Causes(states, events, p, j, states[k].jobs[p].kind, states[k].jobs[p].phase.outcome)
  {
    var s, t, act := states[k - 1], states[k], events[k - 1].act;
    RunKeepsInv(states, events, k - 1);
    assert StepAt(states, events, k - 1);
    if events[k - 1].pid != p || act.Environment? {
      OtherStep(s, t, events[k - 1].pid, act, p);
      j := OutcomeHasACause(states, events, k - 1, p);
    } else {
      EndingStep(s, t, p, act);
      if act.Leave? {
        j := OutcomeHasACause(states, events, k - 1, p);
      } else {
        j := k - 1;
        EndHasACause(s, t, p, act, states, events, j);
      }
    }
  }
}
