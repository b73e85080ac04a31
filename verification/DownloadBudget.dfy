/**
  The session's remote download budget: a 64-bit counter that any number of
  tasks move by compare-exchange loops and give back through a reservation
  guard. `fetch_sub` wraps, so that it never underflows is a theorem.
 */
module DownloadBudget {
  import opened Cache

  const U64: nat := 0x1_0000_0000_0000_0000

  type u64 = x: int | 0 <= x < U64

  /** `reserve_remote_download` asks for all of it, `reserve_remote_download_up_to` for what is left. */
  datatype Request = Exactly(bytes: u64) | UpTo(bytes: u64)

  datatype Pc =
    | Idle
    | Trying(request: Request, current: u64)
    | Holding(request: Request, reserved: u64)
    | Denied(request: Request, current: u64)

  /** `committed` sums what commits leave charged, `downloaded` what they were told was downloaded. */
  datatype State = State(limit: u64, counter: u64, committed: nat, downloaded: nat, tasks: seq<Pc>)

  function Min(a: u64, b: u64): u64 { if a < b then a else b }

  function SaturatingSub(a: u64, b: u64): u64 { if a < b then 0 else a - b }

  /** `AtomicU64::fetch_sub`. */
  function WrappingSub(a: u64, b: u64): u64 { if b <= a then a - b else a - b + U64 }

  /** What one round of the loop tries to take, or nothing when the request is refused. */
  function Take(limit: u64, request: Request, current: u64): Option<u64>
  {
    match request
    case Exactly(bytes) => if current + bytes >= U64 || current + bytes > limit then None else Some(bytes)
    case UpTo(bytes) => Some(Min(bytes, SaturatingSub(limit, current)))
  }

  datatype Act =
    | Load(request: Request)
    | Exchange(spurious: bool)
    | Commit(bytes: u64)
    | Drop
    | Report

  /** One atomic step of task `p`. A weak exchange may fail spuriously. */
  ghost predicate Step(s: State, t: State, p: nat, act: Act)
    requires p < |s.tasks|
  {
    match act
    case Load(request) =>
      s.tasks[p].Idle? && t == s.(tasks := s.tasks[p := Trying(request, s.counter)])
    case Exchange(spurious) =>
      && s.tasks[p].Trying?
      && var request, current := s.tasks[p].request, s.tasks[p].current;
         (match Take(s.limit, request, current)
         case None => t == s.(tasks := s.tasks[p := Denied(request, current)])
         case Some(taken) =>
           if s.counter == current && !spurious
           then t == s.(counter := current + taken, tasks := s.tasks[p := Holding(request, taken)])
           else t == s.(tasks := s.tasks[p := Trying(request, s.counter)]))
    case Commit(bytes) =>
      // a download larger than its reservation is charged what was reserved
      && s.tasks[p].Holding?
      && t == s.(counter := WrappingSub(s.counter, SaturatingSub(s.tasks[p].reserved, bytes)),
                 committed := s.committed + Min(bytes, s.tasks[p].reserved),
                 downloaded := s.downloaded + bytes,
                 tasks := s.tasks[p := Idle])
    case Drop =>
      && s.tasks[p].Holding?
      && t == s.(counter := WrappingSub(s.counter, s.tasks[p].reserved), tasks := s.tasks[p := Idle])
    case Report =>
      s.tasks[p].Denied? && t == s.(tasks := s.tasks[p := Idle])
  }

  function ReservedBy(pc: Pc): nat { if pc.Holding? then pc.reserved else 0 }

  /** The sum of all live reservations. */
  function Outstanding(tasks: seq<Pc>): nat
  {
    if tasks == [] then 0 else ReservedBy(tasks[0]) + Outstanding(tasks[1..])
  }

  lemma {:induction false} OutstandingUpdate(tasks: seq<Pc>, p: nat, pc: Pc)
    requires p < |tasks|
    ensures Outstanding(tasks[p := pc]) + ReservedBy(tasks[p]) == Outstanding(tasks) + ReservedBy(pc)
  {
    if p > 0 {
      OutstandingUpdate(tasks[1..], p - 1, pc);
      assert tasks[p := pc][1..] == tasks[1..][p - 1 := pc];
    } else {
      assert tasks[p := pc][1..] == tasks[1..];
    }
  }

  ghost predicate Init(s: State)
  {
    && s.counter == 0 && s.committed == 0 && s.downloaded == 0
    && (forall p :: 0 <= p < |s.tasks| ==> s.tasks[p].Idle?)
  }

  ghost predicate Inv(s: State)
  {
    && s.counter == s.committed + Outstanding(s.tasks)
    && s.counter <= s.limit
    && (forall p :: 0 <= p < |s.tasks| && s.tasks[p].Trying? ==> s.tasks[p].current <= s.limit)
    && (forall p :: 0 <= p < |s.tasks| ==> Granted(s.tasks[p]))
  }

  /** A reservation is for what was asked: all of it, or at most that. */
  ghost predicate Granted(pc: Pc)
  {
    pc.Holding? ==> if pc.request.Exactly? then pc.reserved == pc.request.bytes else pc.reserved <= pc.request.bytes
  }

  lemma {:induction false} NoReservationOwesNothing(tasks: seq<Pc>)
    requires forall p :: 0 <= p < |tasks| ==> !tasks[p].Holding?
    ensures Outstanding(tasks) == 0
  {
    if tasks != [] {
      NoReservationOwesNothing(tasks[1..]);
    }
  }

  /** Every step accounts exactly, and no subtraction wraps. */
  lemma StepKeepsInv(s: State, t: State, p: nat, act: Act)
    requires p < |s.tasks| && Inv(s) && Step(s, t, p, act)
    ensures Inv(t) && t.limit == s.limit && |t.tasks| == |s.tasks|
    ensures act.Commit? ==> t.counter == s.counter - SaturatingSub(s.tasks[p].reserved, act.bytes)
    ensures act.Drop? ==> t.counter == s.counter - s.tasks[p].reserved
  {
    OutstandingUpdate(s.tasks, p, t.tasks[p]);
    assert t.tasks == s.tasks[p := t.tasks[p]];
  }

  datatype Event = Event(task: nat, act: Act)

  ghost predicate Run(states: seq<State>, events: seq<Event>)
  {
    && |states| == |events| + 1
    && Init(states[0])
    && forall k :: 0 <= k < |events| ==> StepAt(states, events, k)
  }

  ghost predicate StepAt(states: seq<State>, events: seq<Event>, k: nat)
    requires k < |events| < |states|
  {
    events[k].task < |states[k].tasks| && Step(states[k], states[k + 1], events[k].task, events[k].act)
  }

  /** In every interleaving the counter is committed bytes plus live reservations, and within the limit. */
  lemma {:induction false} BudgetIsExact(states: seq<State>, events: seq<Event>, k: nat)
    requires Run(states, events) && k < |states|
    ensures Inv(states[k]) && states[k].limit == states[0].limit
  {
    if k > 0 {
      BudgetIsExact(states, events, k - 1);
      assert StepAt(states, events, k - 1);
      StepKeepsInv(states[k - 1], states[k], events[k - 1].task, events[k - 1].act);
    } else {
      NoReservationOwesNothing(states[0].tasks);
    }
  }

  /** No download so far was larger than its reservation. */
  ghost predicate WithinReservations(states: seq<State>, events: seq<Event>, k: nat)
    requires Run(states, events) && k < |states|
  {
    forall j :: 0 <= j < k ==> CommitFits(states, events, j)
  }

  ghost predicate CommitFits(states: seq<State>, events: seq<Event>, j: nat)
    requires Run(states, events) && j < |events|
  {
    assert StepAt(states, events, j);
    events[j].act.Commit? ==> events[j].act.bytes <= states[j].tasks[events[j].task].reserved
  }

  /** What is charged is at most what was downloaded, and is that exactly when no download overran. */
  lemma {:induction false} ChargedIsDownloaded(states: seq<State>, events: seq<Event>, k: nat)
    requires Run(states, events) && k < |states|
    ensures states[k].committed <= states[k].downloaded
    ensures states[k].committed == states[k].downloaded <==> WithinReservations(states, events, k)
  {
    if k > 0 {
      ChargedIsDownloaded(states, events, k - 1);
      assert StepAt(states, events, k - 1);
      assert WithinReservations(states, events, k) <==>
             WithinReservations(states, events, k - 1) && CommitFits(states, events, k - 1);
    }
  }

  /** Downloads and all that is still reserved, full requests in full, never exceed the limit together. */
  lemma DownloadsStayWithinLimit(states: seq<State>, events: seq<Event>, k: nat)
    requires Run(states, events) && k < |states| && WithinReservations(states, events, k)
    ensures states[k].downloaded + Outstanding(states[k].tasks) == states[k].counter <= states[0].limit
    ensures forall p :: 0 <= p < |states[k].tasks| ==> Granted(states[k].tasks[p])
  {
    BudgetIsExact(states, events, k);
    ChargedIsDownloaded(states, events, k);
  }

  /** Once nothing is reserved, the budget spent is what was downloaded, if no download overran. */
  lemma SettledBudget(states: seq<State>, events: seq<Event>, k: nat)
    requires Run(states, events) && k < |states|
    requires forall p :: 0 <= p < |states[k].tasks| ==> !states[k].tasks[p].Holding?
    ensures states[k].counter <= states[0].limit
    ensures states[k].counter == states[k].downloaded <==> WithinReservations(states, events, k)
  {
    BudgetIsExact(states, events, k);
    NoReservationOwesNothing(states[k].tasks);
    ChargedIsDownloaded(states, events, k);
  }

  /** The value a task compares against was the counter at some moment since it loaded it. */
  lemma {:induction false} CurrentWasObserved(states: seq<State>, events: seq<Event>, k: nat, p: nat) returns (j: nat)
    requires Run(states, events) && k < |states| && p < |states[k].tasks|
    requires states[k].tasks[p].Trying? || states[k].tasks[p].Denied?
    ensures j < k && states[j].counter == states[k].tasks[p].current
    ensures forall m :: j < m < k ==> events[m].task != p || !events[m].act.Load?
  {
    assert StepAt(states, events, k - 1);
    BudgetIsExact(states, events, k - 1);
    if events[k - 1].task == p && states[k].tasks[p].Trying? {
      j := k - 1;
    } else {
      j := CurrentWasObserved(states, events, k - 1, p);
    }
  }

  /** A refused reservation really did not fit at some moment of the call; a partial one is never refused. */
  lemma RefusalIsHonest(states: seq<State>, events: seq<Event>, k: nat, p: nat) returns (j: nat)
    requires Run(states, events) && k < |states| && p < |states[k].tasks| && states[k].tasks[p].Denied?
    ensures states[k].tasks[p].request.Exactly?
    ensures j < k && states[j].counter + states[k].tasks[p].request.bytes > states[0].limit
    ensures forall m :: j < m < k ==> events[m].task != p || !events[m].act.Load?
  {
    DeniedDidNotFit(states, events, k, p);
    j := CurrentWasObserved(states, events, k, p);
  }

  lemma {:induction false} DeniedDidNotFit(states: seq<State>, events: seq<Event>, k: nat, p: nat)
    requires Run(states, events) && k < |states| && p < |states[k].tasks| && states[k].tasks[p].Denied?
    ensures states[k].tasks[p].request.Exactly?
    ensures states[k].tasks[p].current + states[k].tasks[p].request.bytes > states[0].limit
  {
    assert StepAt(states, events, k - 1);
    BudgetIsExact(states, events, k - 1);
    if events[k - 1].task != p {
      DeniedDidNotFit(states, events, k - 1, p);
    }
  }

  /**
    An exchange that sees the value it compares against settles the request: one
    for exactly `n` bytes is granted, and raises the counter by `n`, exactly when
    `n` more bytes fit; a partial one takes what was asked or what is left.
   */
  lemma GrantIsExact(states: seq<State>, events: seq<Event>, k: nat)
    requires Run(states, events) && k < |events| && events[k].act == Exchange(false)
    requires events[k].task < |states[k].tasks| && states[k].tasks[events[k].task].Trying?
    requires states[k].tasks[events[k].task].current == states[k].counter
    ensures |states[k + 1].tasks| == |states[k].tasks|
    ensures var request, after := states[k].tasks[events[k].task].request, states[k + 1].tasks[events[k].task];
            var room := states[0].limit - states[k].counter;
            match request
            case Exactly(n) =>
              if n <= room then after == Holding(request, n) && states[k + 1].counter == states[k].counter + n
              else after.Denied? && states[k + 1].counter == states[k].counter
            case UpTo(n) =>
              && after.Holding? && after.request == request
              && after.reserved == (if n <= room then n else room)
              && states[k + 1].counter == states[k].counter + after.reserved
  {
    BudgetIsExact(states, events, k);
    assert StepAt(states, events, k);
  }

  /** A task comes to hold a reservation only by its own exchange, from the counter it compared against. */
  lemma HoldingIsGranted(states: seq<State>, events: seq<Event>, k: nat, p: nat)
    requires Run(states, events) && k < |events| && p < |states[k + 1].tasks| && states[k + 1].tasks[p].Holding?
    requires p < |states[k].tasks| && !states[k].tasks[p].Holding?
    ensures events[k] == Event(p, Exchange(false)) && states[k].tasks[p].Trying?
    ensures states[k].tasks[p].current == states[k].counter
    ensures states[k + 1].tasks[p].request == states[k].tasks[p].request
    ensures states[k + 1].counter == states[k].counter + states[k + 1].tasks[p].reserved
  {
    assert StepAt(states, events, k);
  }
}
