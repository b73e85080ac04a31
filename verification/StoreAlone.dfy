/**
  What a store does that nothing gets in the way of: it ends, without giving up,
  in the outcome that a reading of the record and the objects gives.
 */
module StoreAlone {
  import opened Cache
  import opened ActionStore
  import Slots = ActionSlots

  type Pid = Slots.Pid

  predicate Own(act: Act) { !act.Begin? && !act.Fail? && !act.Environment? && act != Preflight(false) }

  /** Steps of `p` alone, none of them an error. */
  ghost predicate Alone(p: Pid, states: seq<System>, acts: seq<Act>)
  {
    && |states| == |acts| + 1
    && forall k :: 0 <= k < |acts| ==> Own(acts[k]) && Goes(p, states, acts, k)
  }

  ghost predicate Goes(p: Pid, states: seq<System>, acts: seq<Act>, k: nat)
    requires k < |acts| < |states|
  {
    Step(states[k], states[k + 1], p, acts[k])
  }

  /** What the record and the objects call for. */
  function Expected(s: System, p: Pid, kind: Kind): Outcome
    requires kind.Storing?
  {
    match s.Current()
    case None => Stored
    case Some(r) =>
      if r == kind.result then Unchanged
      else if !s.Intact(r) then Stored
      else if !kind.keepExisting then Conflict
      else if (p, r) in s.world.unrestorable then Stored
      else KeptExisting
  }

  /** The steps bring `p`'s store to its end: stored, its result is current, and otherwise nothing has changed. */
  ghost predicate Ends(s: System, p: Pid, kind: Kind, states: seq<System>, acts: seq<Act>, o: Outcome)
    requires kind.Storing?
  {
    && Alone(p, states, acts) && states[0] == s
    && var t := states[|acts|];
    && p in t.jobs && t.jobs[p].kind == kind && t.jobs[p].phase == Done(o)
    && t.Current() == (if o == Stored then Some(kind.result) else s.Current())
  }

  /** The store is at `phase`, in a state that every run keeps to. */
  ghost predicate Ready(s: System, p: Pid, kind: Kind, phase: Phase)
  {
    Inv(s) && p in s.jobs && kind.Storing? && s.jobs[p].kind == kind && s.jobs[p].phase == phase
  }

  lemma First(
    s: System, m: System, p: Pid, act: Act, kind: Kind, states: seq<System>, acts: seq<Act>, o: Outcome)
    returns (all: seq<System>, steps: seq<Act>)
    requires kind.Storing? && Step(s, m, p, act) && Own(act) && Ends(m, p, kind, states, acts, o)
    requires o == Stored || m.Current() == s.Current()
    ensures Ends(s, p, kind, all, steps, o)
  {
    all, steps := [s] + states, [act] + acts;
    forall k | 0 <= k < |steps| ensures Own(steps[k]) && Goes(p, all, steps, k) {
      if k > 0 {
        assert Goes(p, states, acts, k - 1);
        assert steps[k] == acts[k - 1] && all[k] == states[k - 1] && all[k + 1] == states[k];
      }
    }
  }

  // Fresh numbers

  lemma {:induction false} Above(s: set<nat>) returns (n: nat)
    ensures forall x :: x in s ==> x < n
  {
    if s == {} {
      n := 0;
    } else {
      var x :| x in s;
      var m := Above(s - {x});
      n := if m <= x then x + 1 else m;
      assert forall y :: y in s ==> y == x || y in s - {x};
    }
  }

  lemma FreeNumber(s: Slots.State) returns (n: nat)
    ensures s.Free(n)
  {
    var inUse := set p | p in s.pcs && Slots.Opens(s.pcs[p], InodeOf(s.pcs[p])) :: InodeOf(s.pcs[p]);
    var m := Above(inUse + (if s.path.Some? then {s.path.value} else {}));
    n := m;
    forall p | p in s.pcs ensures Slots.Opens(s.pcs[p], InodeOf(s.pcs[p])) ==> InodeOf(s.pcs[p]) in inUse {
    }
  }

  function InodeOf(pc: Slots.Pc): nat
  {
    if pc.Opened? || pc.Locked? || pc.Occupied? || pc.Spent? then pc.inode else 0
  }

  // From the end backwards

  lemma FromFinish(s: System, p: Pid, kind: Kind, o: Outcome) returns (states: seq<System>, acts: seq<Act>)
    requires Ready(s, p, kind, Finish(o)) && (o == Stored ==> s.Current() == Some(kind.result))
    ensures Ends(s, p, kind, states, acts, o)
  {
    var t := s.In(p, Done(o)).(slots := s.slots.Release(p));
    states, acts := [s, t], [Leave];
    assert Step(s, t, p, Leave);
    assert Goes(p, states, acts, 0);
  }

  lemma FromWriting(s: System, p: Pid, kind: Kind, why: Why) returns (states: seq<System>, acts: seq<Act>)
    requires Ready(s, p, kind, Writing(why)) && (s.At(p).Vacant? ==> s.slots.path.None?)
    ensures Ends(s, p, kind, states, acts, Stored)
  {
    assert JobOk(s, p) && Slots.ClaimOk(s.slots, p);
    var n := FreeNumber(s.slots);
    var bytes := Canonical(kind.result);
    var slots := if s.At(p).Vacant? then s.slots.Install(n, bytes).Goto(p, Slots.Idle)
                 else s.slots.Install(n, bytes).Goto(p, Slots.Spent(s.At(p).inode));
    var t := s.In(p, Finish(Stored)).(slots := slots);
    assert Step(s, t, p, Write(n));
    StepKeepsInv(s, t, p, Write(n));
    assert t.Current() == Some(kind.result);
    states, acts := FromFinish(t, p, kind, Stored);
    states, acts := First(s, t, p, Write(n), kind, states, acts, Stored);
  }

  /** Nobody else is in the way: no process holds the lock of the record at the path. */
  ghost predicate Unlocked(s: System) { s.slots.path.Some? ==> s.slots.path.value !in s.slots.lock }

  lemma Judging(s: System, p: Pid, kind: Kind, phase: Phase, v: Verdict, next: Phase, slots: Slots.State)
    returns (t: System)
    requires Ready(s, p, kind, phase) && Deciding(phase) && Reaches(s, p, kind, phase.existing, phase.found, v)
    requires match v.Settles()
             case Some(o) => next == Finish(o) && slots == s.slots
             case None =>
               if phase.DecideFree? then next == Claiming && slots == s.slots.Goto(p, Slots.Opening(0))
               else next == Writing(Judged(phase.existing, v)) && slots == s.slots
    ensures Step(s, t, p, Judge(v)) && Ready(t, p, kind, next)
    ensures t.slots == slots && t.Current() == s.Current() && t.world == s.world
  {
    assert JobOk(s, p);
    t := s.In(p, next).(slots := slots);
    assert Step(s, t, p, Judge(v));
    StepKeepsInv(s, t, p, Judge(v));
  }

  /** With every object found, or one known missing, the decision falls. */
  lemma FromVerdict(s: System, p: Pid, kind: Kind, phase: Phase) returns (v: Verdict, t: System)
    requires Ready(s, p, kind, phase) && Deciding(phase) && s.Current() == Some(phase.existing)
    requires phase.existing == kind.result || !s.Intact(phase.existing) || s.names(phase.existing) <= phase.found
    requires s.names(phase.existing) <= phase.found ==> s.Intact(phase.existing)
    ensures Step(s, t, p, Judge(v)) && t.Current() == s.Current() && t.world == s.world && t.names == s.names
    ensures if Expected(s, p, kind) != Stored then Ready(t, p, kind, Finish(Expected(s, p, kind)))
            else if phase.DecideFree?
            then Ready(t, p, kind, Claiming) && t.slots == s.slots.Goto(p, Slots.Opening(0))
            else Ready(t, p, kind, Writing(Judged(phase.existing, v)))
  {
    var r := phase.existing;
    v := if r == kind.result then Same
         else if !s.Intact(r) then Broken
         else if !kind.keepExisting then Verdict.Intact
         else if (p, r) in s.world.unrestorable then Unrestorable
         else Restorable;
    match v.Settles()
    case Some(o) => t := Judging(s, p, kind, phase, v, Finish(o), s.slots);
    case None =>
      if phase.DecideFree? {
        t := Judging(s, p, kind, phase, v, Claiming, s.slots.Goto(p, Slots.Opening(0)));
      } else {
        t := Judging(s, p, kind, phase, v, Writing(Judged(r, v)), s.slots);
      }
  }

  function Rank(phase: Phase): nat { if phase.DecideFree? then 2 else if phase.Claiming? then 1 else 0 }

  /** The store looks at the record that is current, and every object it has found is there. */
  ghost predicate Looking(s: System, p: Pid, kind: Kind, phase: Phase)
  {
    && Ready(s, p, kind, phase) && Deciding(phase)
    && s.Current() == Some(phase.existing) && phase.found <= s.world.present
    && (phase.DecideFree? ==> Unlocked(s))
  }

  lemma Finding(s: System, p: Pid, kind: Kind, phase: Phase, d: Digest) returns (t: System)
    requires Looking(s, p, kind, phase) && d in s.names(phase.existing) && d in s.world.present
    ensures Step(s, t, p, Find(d)) && Looking(t, p, kind, phase.(found := phase.found + {d}))
    ensures t.Current() == s.Current() && t.world == s.world && t.names == s.names && t.slots == s.slots
  {
    t := s.In(p, phase.(found := phase.found + {d}));
    assert Step(s, t, p, Find(d));
    StepKeepsInv(s, t, p, Find(d));
  }

  lemma {:induction false} FromDeciding(s: System, p: Pid, kind: Kind, phase: Phase)
    returns (states: seq<System>, acts: seq<Act>)
    requires Looking(s, p, kind, phase)
    ensures Ends(s, p, kind, states, acts, Expected(s, p, kind))
    decreases Rank(phase), |s.names(phase.existing) - phase.found|
  {
    var r, o := phase.existing, Expected(s, p, kind);
    if r != kind.result && s.Intact(r) && !(s.names(r) <= phase.found) {
      var d :| d in s.names(r) && d !in phase.found;
      var t := Finding(s, p, kind, phase, d);
      assert s.names(r) - (phase.found + {d}) < s.names(r) - phase.found;
      Smaller(s.names(r) - (phase.found + {d}), s.names(r) - phase.found);
      states, acts := FromDeciding(t, p, kind, phase.(found := phase.found + {d}));
      states, acts := First(s, t, p, Find(d), kind, states, acts, o);
    } else {
      var v, t := FromVerdict(s, p, kind, phase);
      if o != Stored {
        states, acts := FromFinish(t, p, kind, o);
      } else if phase.DecideFree? {
        states, acts := FromClaiming(t, p, kind);
      } else {
        assert JobOk(t, p);
        states, acts := FromWriting(t, p, kind, Judged(r, v));
      }
      states, acts := First(s, t, p, Judge(v), kind, states, acts, o);
    }
  }

  lemma Smaller(a: set<Digest>, b: set<Digest>)
    requires a < b
    ensures |a| < |b|
  {
    var rest := b - a;
    assert b == a + rest && rest != {};
  }

  /** One step of a claim that nobody disturbs. */
  lemma Claim(s: System, p: Pid, kind: Kind, op: Slots.Op, slots: Slots.State) returns (t: System)
    requires Ready(s, p, kind, Claiming) && (op.Open? || op.Lock? || op.Check?)
    requires Slots.Step(s.slots, slots, p, op) && slots.path == s.slots.path && slots.content == s.slots.content
    ensures Step(s, t, p, SlotOp(op)) && Ready(t, p, kind, Claiming)
    ensures t == s.(slots := slots) && t.Current() == s.Current()
  {
    t := s.(slots := slots);
    assert Step(s, t, p, SlotOp(op));
    StepKeepsInv(s, t, p, SlotOp(op));
  }

  lemma FromClaiming(s: System, p: Pid, kind: Kind) returns (states: seq<System>, acts: seq<Act>)
    requires Ready(s, p, kind, Claiming) && s.At(p) == Slots.Opening(0) && Unlocked(s)
    ensures Ends(s, p, kind, states, acts, Expected(s, p, kind))
    decreases Rank(Claiming), 3
  {
    var o := Expected(s, p, kind);
    match s.slots.path
    case None =>
      var t := Claim(s, p, kind, Slots.Open, s.slots.Goto(p, Slots.Vacant));
      states, acts := FromVacant(t, p, kind);
      states, acts := First(s, t, p, SlotOp(Slots.Open), kind, states, acts, o);
    case Some(i) =>
      var t := Claim(s, p, kind, Slots.Open, s.slots.Goto(p, Slots.Opened(i, 0)));
      states, acts := FromOpened(t, p, kind, i);
      states, acts := First(s, t, p, SlotOp(Slots.Open), kind, states, acts, o);
  }

  lemma FromVacant(s: System, p: Pid, kind: Kind) returns (states: seq<System>, acts: seq<Act>)
    requires Ready(s, p, kind, Claiming) && s.At(p).Vacant? && s.slots.path.None?
    ensures Ends(s, p, kind, states, acts, Stored)
  {
    var t := s.In(p, Writing(WasVacant));
    assert Step(s, t, p, Read);
    StepKeepsInv(s, t, p, Read);
    states, acts := FromWriting(t, p, kind, WasVacant);
    states, acts := First(s, t, p, Read, kind, states, acts, Stored);
  }

  lemma FromOpened(s: System, p: Pid, kind: Kind, i: Inode) returns (states: seq<System>, acts: seq<Act>)
    requires Ready(s, p, kind, Claiming) && s.At(p) == Slots.Opened(i, 0) && s.slots.path == Some(i) && Unlocked(s)
    ensures Ends(s, p, kind, states, acts, Expected(s, p, kind))
    decreases Rank(Claiming), 2
  {
    var locked := s.slots.(lock := s.slots.lock[i := p]).Goto(p, Slots.Locked(i, 0));
    var t := Claim(s, p, kind, Slots.Lock, locked);
    states, acts := FromLocked(t, p, kind, i);
    states, acts := First(s, t, p, SlotOp(Slots.Lock), kind, states, acts, Expected(s, p, kind));
  }

  lemma FromLocked(s: System, p: Pid, kind: Kind, i: Inode) returns (states: seq<System>, acts: seq<Act>)
    requires Ready(s, p, kind, Claiming) && s.At(p) == Slots.Locked(i, 0) && s.slots.path == Some(i)
    ensures Ends(s, p, kind, states, acts, Expected(s, p, kind))
    decreases Rank(Claiming), 1
  {
    var t := Claim(s, p, kind, Slots.Check, s.slots.Goto(p, Slots.Occupied(i)));
    states, acts := FromOccupied(t, p, kind, i);
    states, acts := First(s, t, p, SlotOp(Slots.Check), kind, states, acts, Expected(s, p, kind));
  }

  lemma Reading(s: System, p: Pid, kind: Kind, i: Inode, next: Phase) returns (t: System)
    requires Ready(s, p, kind, Claiming) && s.At(p) == Slots.Occupied(i)
    requires next == match s.Parsed(i)
                     case Some(r) => DecideHeld(r, {})
                     case None => Writing(Unparseable)
    ensures Step(s, t, p, Read) && Ready(t, p, kind, next)
    ensures t.slots == s.slots && t.world == s.world && t.names == s.names && t.action == s.action
  {
    t := s.In(p, next);
    assert Step(s, t, p, Read);
    StepKeepsInv(s, t, p, Read);
  }

  lemma FromOccupied(s: System, p: Pid, kind: Kind, i: Inode) returns (states: seq<System>, acts: seq<Act>)
    requires Ready(s, p, kind, Claiming) && s.At(p) == Slots.Occupied(i) && s.slots.path == Some(i)
    ensures Ends(s, p, kind, states, acts, Expected(s, p, kind))
    decreases Rank(Claiming), 0
  {
    assert s.Current() == s.Parsed(i);
    match s.Parsed(i)
    case Some(r) =>
      var t := Reading(s, p, kind, i, DecideHeld(r, {}));
      states, acts := FromDeciding(t, p, kind, DecideHeld(r, {}));
      states, acts := First(s, t, p, Read, kind, states, acts, Expected(s, p, kind));
    case None =>
      var t := Reading(s, p, kind, i, Writing(Unparseable));
      states, acts := FromWriting(t, p, kind, Unparseable);
      states, acts := First(s, t, p, Read, kind, states, acts, Stored);
  }

  /**
    A store begun in any state of any run, for a result of this action, can end:
    if no process holds the record's lock, its own steps alone bring it, without
    an error, to the outcome that the record and the objects call for, and then
    its result is current or the record is as it was.
   */
  lemma StoreAloneEnds(s: System, p: Pid, kind: Kind) returns (states: seq<System>, acts: seq<Act>)
    requires Ready(s, p, kind, Start) && Unlocked(s)
    requires kind.result.version == 1 && kind.result.action == s.action
    ensures Ends(s, p, kind, states, acts, Expected(s, p, kind))
  {
    var t := s.In(p, LookUp);
    assert Step(s, t, p, Preflight(true));
    StepKeepsInv(s, t, p, Preflight(true));
    states, acts := FromLookUp(t, p, kind);
    states, acts := First(s, t, p, Preflight(true), kind, states, acts, Expected(s, p, kind));
  }

  lemma FromLookUp(s: System, p: Pid, kind: Kind) returns (states: seq<System>, acts: seq<Act>)
    requires Ready(s, p, kind, LookUp) && Unlocked(s)
    ensures Ends(s, p, kind, states, acts, Expected(s, p, kind))
  {
    match s.Current()
    case Some(r) =>
      var t := Looked(s, p, kind, true, DecideFree(r, {}), s.slots);
      states, acts := FromDeciding(t, p, kind, DecideFree(r, {}));
      states, acts := First(s, t, p, Look(true), kind, states, acts, Expected(s, p, kind));
    case None =>
      var t := Looked(s, p, kind, false, Claiming, s.slots.Goto(p, Slots.Opening(0)));
      states, acts := FromClaiming(t, p, kind);
      states, acts := First(s, t, p, Look(false), kind, states, acts, Stored);
  }

  lemma Looked(s: System, p: Pid, kind: Kind, hit: bool, next: Phase, slots: Slots.State) returns (t: System)
    requires Ready(s, p, kind, LookUp) && (hit <==> s.Current().Some?)
    requires if hit then next == DecideFree(s.Current().value, {}) && slots == s.slots
             else next == Claiming && slots == s.slots.Goto(p, Slots.Opening(0))
    ensures Step(s, t, p, Look(hit)) && Ready(t, p, kind, next)
    ensures t.slots == slots && t.world == s.world && t.names == s.names && t.action == s.action
  {
    assert JobOk(s, p);
    t := s.In(p, next).(slots := slots);
    assert Step(s, t, p, Look(hit));
    StepKeepsInv(s, t, p, Look(hit));
  }
}
