/**
  The action-record slot protocol as a step system over one record path.

  A process claims the record by opening the path, locking the opened inode and
  checking that the path still names it. `replace` and `remove` then act on the
  *path*, unconditionally: nothing but the protocol makes that safe.

  A staged file becomes visible only when it is renamed into place, so its inode
  is allocated by that step. A number is free for that once the path no longer
  names it and no process has it open: numbers do come back, and the check after
  the lock compares numbers.
 */
module ActionSlots {
  import opened Cache

  type Pid = nat
  type Inode = nat

  const MAX_ROUNDS: nat := 64

  /** Where a process is inside one claim. */
  datatype Pc =
    | Idle
    | Opening(round: nat)
    | Opened(inode: Inode, round: nat)
    | Locked(inode: Inode, round: nat)
    | Vacant
    | Occupied(inode: Inode)
    | Spent(inode: Inode)
  {
    /** The inode whose lock the process holds at this point. */
    function Holds(): Option<Inode> {
      match this
      case Locked(i, _) => Some(i)
      case Occupied(i) => Some(i)
      case Spent(i) => Some(i)
      case _ => None
    }
  }

  predicate Opens(pc: Pc, i: Inode)
  {
    (pc.Opened? || pc.Locked? || pc.Occupied? || pc.Spent?) && pc.inode == i
  }

  datatype State = State(
    path: Option<Inode>,
    content: map<Inode, RecordBytes>,
    lock: map<Inode, Pid>,
    pcs: map<Pid, Pc>)
  {
    function PcOf(p: Pid): Pc { if p in pcs then pcs[p] else Idle }

    /** No process has the inode open. */
    predicate Closed(i: Inode) { forall p :: p in pcs ==> !Opens(pcs[p], i) }

    predicate Free(i: Inode) { path != Some(i) && Closed(i) }

    function Goto(p: Pid, pc: Pc): State { this.(pcs := pcs[p := pc]) }

    /** Put a staged file under a free inode at the path. */
    function Install(n: Inode, bytes: RecordBytes): State { this.(path := Some(n), content := content[n := bytes]) }

    function Unlock(i: Inode): State { this.(lock := lock - {i}) }

    /** Leave the slot, releasing the lock it holds if any. */
    function Release(p: Pid): State {
      match PcOf(p).Holds()
      case Some(i) => Unlock(i).Goto(p, Idle)
      case None => Goto(p, Idle)
    }
  }

  datatype Op =
    | Claim
    | Open
    | Lock
    | TryLockBusy
    | Check
    | Replace(staged: Inode, bytes: RecordBytes)
    | Publish(staged: Inode, bytes: RecordBytes)
    | Remove
    | Drop
    | Pause

  /** One atomic step of process `p`. `Drop` also stands for an error return and for a crash. */
  ghost predicate Step(s: State, t: State, p: Pid, op: Op)
  {
    match op
    case Claim =>
      s.PcOf(p) == Idle && t == s.Goto(p, Opening(0))
    case Open =>
      && s.PcOf(p).Opening?
      && t == (match s.path
               case None => s.Goto(p, Vacant)
               case Some(i) => s.Goto(p, Opened(i, s.PcOf(p).round)))
    case Lock =>
      && s.PcOf(p).Opened?
      && s.PcOf(p).inode !in s.lock
      && t == s.(lock := s.lock[s.PcOf(p).inode := p]).Goto(p, Locked(s.PcOf(p).inode, s.PcOf(p).round))
    case TryLockBusy =>
      s.PcOf(p).Opened? && s.PcOf(p).inode in s.lock && t == s.Goto(p, Idle)
    case Check =>
      && s.PcOf(p).Locked?
      && var i, round := s.PcOf(p).inode, s.PcOf(p).round;
         t == if s.path == Some(i) then s.Goto(p, Occupied(i))
              else if round + 1 < MAX_ROUNDS then s.Unlock(i).Goto(p, Opening(round + 1))
              else s.Unlock(i).Goto(p, Idle)
    case Replace(n, bytes) =>
      s.PcOf(p).Occupied? && s.Free(n) && t == s.Install(n, bytes).Goto(p, Spent(s.PcOf(p).inode))
    case Publish(n, bytes) =>
      // persist_noclobber: an existing record makes it fail and leaves the path alone
      && s.PcOf(p).Vacant?
      && s.Free(n)
      && t == (if s.path.None? then s.Install(n, bytes) else s).Goto(p, Idle)
    case Remove =>
      s.PcOf(p).Occupied? && t == s.(path := None).Goto(p, Spent(s.PcOf(p).inode))
    case Drop =>
      t == s.Release(p)
    case Pause =>
      // work that touches neither the record path nor a lock
      t == s
  }

  ghost predicate Init(s: State)
  {
    s.lock == map[] && s.pcs == map[] && (s.path.Some? ==> s.path.value in s.content)
  }

  predicate LockedBy(s: State, i: Inode, p: Pid) { i in s.lock && s.lock[i] == p }

  /** The claim of one process is consistent with the lock table and the path. */
  ghost predicate ClaimOk(s: State, p: Pid)
  {
    match s.PcOf(p)
    case Opened(i, _) => i in s.content
    case Locked(i, _) => LockedBy(s, i, p)
    case Occupied(i) => LockedBy(s, i, p) && s.path == Some(i)
    case Spent(i) => LockedBy(s, i, p)
    case _ => true
  }

  /** A lock belongs to a process inside a claim of that inode. */
  ghost predicate LockOk(s: State, i: Inode)
  {
    i in s.lock ==> s.PcOf(s.lock[i]).Holds() == Some(i) && i in s.content
  }

  /** What every interleaving keeps. */
  ghost predicate Inv(s: State)
  {
    && (forall p :: ClaimOk(s, p))
    && (forall i :: LockOk(s, i))
    && (s.path.Some? ==> s.path.value in s.content)
  }

  lemma StepKeepsInv(s: State, t: State, p: Pid, op: Op)
    requires Inv(s) && Step(s, t, p, op)
    ensures Inv(t)
  {
    assert ClaimOk(s, p);
    forall q ensures ClaimOk(t, q) {
      assert ClaimOk(s, q);
    }
    forall i ensures LockOk(t, i) {
      assert LockOk(s, i);
    }
  }

  /** A run: states and the steps between them. */
  datatype Event = Event(pid: Pid, op: Op)

  ghost predicate Run(states: seq<State>, events: seq<Event>)
  {
    && |states| == |events| + 1
    && Init(states[0])
    && forall k :: 0 <= k < |events| ==> StepAt(states, events, k)
  }

  ghost predicate StepAt(states: seq<State>, events: seq<Event>, k: nat)
    requires k < |events| < |states|
  {
    Step(states[k], states[k + 1], events[k].pid, events[k].op)
  }

  lemma {:induction false} RunKeepsInv(states: seq<State>, events: seq<Event>, k: nat)
    requires Run(states, events) && k < |states|
    ensures Inv(states[k])
  {
    if k > 0 {
      RunKeepsInv(states, events, k - 1);
      assert StepAt(states, events, k - 1);
      StepKeepsInv(states[k - 1], states[k], events[k - 1].pid, events[k - 1].op);
    }
  }

  /** The rounds of its claim that `p` has lost by state `k`: what it had locked was not at the path any more. */
  ghost function LostRounds(states: seq<State>, events: seq<Event>, p: Pid, k: nat): nat
    requires |states| == |events| + 1 && k < |states|
  {
    if k == 0 then 0 else
    var s, e := states[k - 1], events[k - 1];
    if e == Event(p, Claim) then 0
    else if e == Event(p, Check) && s.PcOf(p).Locked? && s.path != Some(s.PcOf(p).inode)
    then LostRounds(states, events, p, k - 1) + 1
    else LostRounds(states, events, p, k - 1)
  }

  predicate Trying(pc: Pc) { pc.Opening? || pc.Opened? || pc.Locked? }

  /** A claim counts the rounds it lost, and has lost fewer than the limit while it goes on. */
  lemma {:induction false} RoundsAreCounted(states: seq<State>, events: seq<Event>, p: Pid, k: nat)
    requires Run(states, events) && k < |states| && Trying(states[k].PcOf(p))
    ensures states[k].PcOf(p).round == LostRounds(states, events, p, k) < 64
  {
    if k > 0 {
      assert StepAt(states, events, k - 1);
      if events[k - 1] != Event(p, Claim) {
        RoundsAreCounted(states, events, p, k - 1);
      }
    }
  }

  /** A check ends the claim without a slot exactly when it is the sixty-fourth lost round. */
  lemma ClaimGivesUpExactly(states: seq<State>, events: seq<Event>, p: Pid, k: nat)
    requires Run(states, events) && k < |events| && events[k] == Event(p, Check)
    ensures states[k + 1].PcOf(p).Idle? <==> LostRounds(states, events, p, k + 1) == 64
    ensures states[k].PcOf(p).Locked?
    ensures states[k + 1].PcOf(p).Occupied? <==> states[k].path == Some(states[k].PcOf(p).inode)
    ensures states[k + 1].PcOf(p).Idle? || states[k + 1].PcOf(p).Occupied? || states[k + 1].PcOf(p).Opening?
  {
    assert StepAt(states, events, k);
    RoundsAreCounted(states, events, p, k);
  }

  /**
    Whoever holds an occupied slot still has the path naming its inode until it
    acts itself, whatever the other processes do in between.
   */
  lemma {:induction false} HolderKeepsPath(states: seq<State>, events: seq<Event>, p: Pid, a: nat, b: nat)
    requires Run(states, events) && a <= b < |states|
    requires states[a].PcOf(p).Occupied?
    requires forall k :: a <= k < b ==> events[k].pid != p
    ensures states[b].PcOf(p) == states[a].PcOf(p)
    ensures states[b].path == Some(states[a].PcOf(p).inode)
  {
    if a == b {
      RunKeepsInv(states, events, a);
    } else {
      HolderKeepsPath(states, events, p, a, b - 1);
      assert StepAt(states, events, b - 1);
      RunKeepsInv(states, events, b);
    }
    assert ClaimOk(states[b], p);
  }

  /** Occupied slots exclude each other. */
  lemma OccupiedIsExclusive(states: seq<State>, events: seq<Event>, k: nat, p: Pid, q: Pid)
    requires Run(states, events) && k < |states|
    requires states[k].PcOf(p).Occupied? && states[k].PcOf(q).Occupied?
    ensures p == q
  {
    RunKeepsInv(states, events, k);
    assert ClaimOk(states[k], p) && ClaimOk(states[k], q);
  }

  /**
    The only ways the path ever changes: a publish into an empty path, or the
    holder of the lock on the very inode the path names replacing or removing it.
    Whatever is put there is an inode that was not in use.
   */
  lemma PathChangesOnlyByItsHolder(states: seq<State>, events: seq<Event>, k: nat)
    requires Run(states, events) && k < |events|
    requires states[k].path != states[k + 1].path
    ensures var s, t, p, op := states[k], states[k + 1], events[k].pid, events[k].op;
            match s.path
            case None => op.Publish? && t.path == Some(op.staged)
            case Some(i) =>
              && s.PcOf(p) == Occupied(i) && LockedBy(s, i, p)
              && ((op.Replace? && t.path == Some(op.staged)) || (op.Remove? && t.path == None))
    ensures states[k + 1].path.Some? ==> states[k].Free(states[k + 1].path.value)
  {
    RunKeepsInv(states, events, k);
    assert StepAt(states, events, k);
    assert ClaimOk(states[k], events[k].pid);
  }

  ghost predicate InUseThroughout(states: seq<State>, a: nat, b: nat, i: Inode)
    requires b < |states|
  {
    forall m :: a <= m <= b ==> !states[m].Free(i)
  }

  /** A record file is never rewritten in place: what a process has open or finds at the path stays as it is. */
  lemma {:induction false} ContentIsStable(states: seq<State>, events: seq<Event>, a: nat, b: nat, i: Inode)
    requires Run(states, events) && a <= b < |states| && InUseThroughout(states, a, b, i)
    ensures Get(states[b].content, i) == Get(states[a].content, i)
  {
    if a < b {
      ContentIsStable(states, events, a, b - 1, i);
      assert StepAt(states, events, b - 1);
      assert !states[b - 1].Free(i);
    }
  }

  ghost predicate OpenThroughout(states: seq<State>, b: nat, c: nat, i: Inode)
    requires c < |states|
  {
    forall m :: b <= m <= c ==> !states[m].Closed(i)
  }

  /** A record that stopped being current does not come back, under its number, while any process has it open. */
  lemma {:induction false} NoReturn(states: seq<State>, events: seq<Event>, b: nat, c: nat, i: Inode)
    requires Run(states, events) && b <= c < |states|
    requires states[b].path != Some(i) && OpenThroughout(states, b, c, i)
    ensures states[c].path != Some(i)
  {
    if b < c {
      NoReturn(states, events, b, c - 1, i);
      assert !states[c - 1].Free(i);
      if states[c - 1].path != states[c].path {
        PathChangesOnlyByItsHolder(states, events, c - 1);
      }
    }
  }

  /** One process removes the record and leaves, and the next publishes under the number that came free. */
  function ReuseEvents(bytes: RecordBytes): seq<Event>
  {
    [Event(1, Claim), Event(1, Open), Event(1, Lock), Event(1, Check), Event(1, Remove), Event(1, Drop),
     Event(1, Claim), Event(1, Open), Event(1, Publish(5, bytes))]
  }

  function ReuseStates(before: RecordBytes, bytes: RecordBytes): seq<State>
  {
    var content, locked := map[5 := before], map[5 := 1];
    [State(Some(5), content, map[], map[]),
     State(Some(5), content, map[], map[1 := Opening(0)]),
     State(Some(5), content, map[], map[1 := Opened(5, 0)]),
     State(Some(5), content, locked, map[1 := Locked(5, 0)]),
     State(Some(5), content, locked, map[1 := Occupied(5)]),
     State(None, content, locked, map[1 := Spent(5)]),
     State(None, content, map[], map[1 := Idle]),
     State(None, content, map[], map[1 := Opening(0)]),
     State(None, content, map[], map[1 := Vacant]),
     State(Some(5), map[5 := bytes], map[], map[1 := Idle])]
  }

  /** Once nobody has it open, a number does come back, with another record. */
  lemma NumbersComeBack(before: RecordBytes, after: RecordBytes)
    ensures Run(ReuseStates(before, after), ReuseEvents(after))
    ensures
      var states := ReuseStates(before, after);
      && states[0].path == states[9].path == Some(5) && states[6].path == None && states[6].Free(5)
      && Get(states[0].content, 5) == Some(before) && Get(states[9].content, 5) == Some(after)
  {
    var states, events := ReuseStates(before, after), ReuseEvents(after);
    forall k | 0 <= k < 9 ensures StepAt(states, events, k) {
      if k < 5 {
        RemovingStep(before, after, k);
      } else {
        PublishingStep(before, after, k);
      }
    }
  }

  lemma RemovingStep(before: RecordBytes, after: RecordBytes, k: nat)
    requires k < 5
    ensures StepAt(ReuseStates(before, after), ReuseEvents(after), k)
  {
  }

  lemma PublishingStep(before: RecordBytes, after: RecordBytes, k: nat)
    requires 5 <= k < 9
    ensures StepAt(ReuseStates(before, after), ReuseEvents(after), k)
  {
  }
}
