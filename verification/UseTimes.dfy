/**
  Access times as the record of use. A record's access time stands for its
  whole closure: a hit that finds it recent walks nothing. Times count from the
  earliest time the platform can represent, so `checked_sub` fails below
  `USE_REFRESH`, which no clock reads.
 */
module UseTimes {
  import opened Cache

  type Time = nat
  type Pid = nat
  type Times = map<Digest, Time>

  const USE_REFRESH: Time := 24 * 60 * 60

  /** Whether a use recorded at `accessed` still stands at `now`. */
  predicate Recent(accessed: Time, now: Time) { now >= USE_REFRESH && accessed > now - USE_REFRESH }

  /** `record_file_use`: a file that is gone is skipped, a recent time stands. */
  function Touch(files: Times, d: Digest, now: Time): (r: Times)
    ensures r.Keys == files.Keys
    ensures d in files ==> r[d] + USE_REFRESH > now
    ensures now >= USE_REFRESH ==> forall e :: e in files ==> r[e] >= files[e]
  {
    if d in files && !Recent(files[d], now) then files[d := now] else files
  }

  function TouchAll(files: Times, ds: seq<Digest>, now: Time): Times
  {
    if ds == [] then files else Touch(TouchAll(files, ds[..|ds| - 1], now), ds[|ds| - 1], now)
  }

  /** After a walk every object it reached and that is stored counts as used at `now`. */
  lemma {:induction false} WalkMarksReached(files: Times, ds: seq<Digest>, now: Time)
    requires now >= USE_REFRESH
    ensures TouchAll(files, ds, now).Keys == files.Keys
    ensures forall d :: d in files ==> TouchAll(files, ds, now)[d] >= files[d]
    ensures forall d :: d in ds && d in files ==> TouchAll(files, ds, now)[d] + USE_REFRESH > now
  {
    if ds != [] {
      WalkMarksReached(files, ds[..|ds| - 1], now);
      assert ds == ds[..|ds| - 1] + [ds[|ds| - 1]];
    }
  }

  /** The store's files as one process updates them. */
  class StoreFiles {
    var objects: Times
    var records: Times

    constructor (objects: Times, records: Times)
      ensures this.objects == objects && this.records == records
    {
      this.objects, this.records := objects, records;
    }

    method RecordFileUse(d: Digest, now: Time)
      modifies this`objects
      ensures objects == Touch(old(objects), d, now)
    {
      if d !in objects {
        return;
      }
      var accessed := objects[d];
      if now >= USE_REFRESH && accessed > now - USE_REFRESH {
        return;
      }
      objects := objects[d := now];
    }

    /** `record_closure_use`: the objects first, the record last and unthrottled. */
    method RecordClosureUse(record: Digest, named: seq<Digest>, now: Time)
      modifies this
      ensures objects == TouchAll(old(objects), named, now)
      ensures records == if record in old(records) then old(records)[record := now] else old(records)
    {
      for k := 0 to |named|
        invariant objects == TouchAll(old(objects), named[..k], now)
        invariant records == old(records)
      {
        RecordFileUse(named[k], now);
        assert named[..k + 1][..k] == named[..k];
      }
      assert named[..|named|] == named;
      if record in records {
        records := records[record := now];
      }
    }

    /** `record_use`: one stat when the record's own time is recent, the whole closure otherwise. */
    method RecordUse(record: Digest, named: seq<Digest>, now: Time)
      modifies this
      ensures record in old(records) && Recent(old(records)[record], now) ==>
                objects == old(objects) && records == old(records)
      ensures !(record in old(records) && Recent(old(records)[record], now)) ==>
                && objects == TouchAll(old(objects), named, now)
                && records == if record in old(records) then old(records)[record := now] else old(records)
    {
      if record in records && Recent(records[record], now) {
        return;
      }
      RecordClosureUse(record, named, now);
    }
  }

  // Any number of processes, call by call

  /** What set a record's access time: writing the file, or a walk that reached these objects. */
  datatype Stamp = Stamp(accessed: Time, walked: Option<set<Digest>>)

  /** A walk has a list of objects still to look at, and perhaps one it found stale and is about to mark. */
  datatype Walk =
    | Asked(record: Digest, now: Time)
    | Walking(record: Digest, now: Time, reached: set<Digest>, todo: set<Digest>, stale: Option<Digest>)
  {
    /** The objects this walk is through with. */
    function Through(): set<Digest>
      requires Walking?
    {
      reached - todo - (if stale.Some? then {stale.value} else {})
    }
  }

  datatype State = State(clock: Time, objects: Times, records: map<Digest, Stamp>, walks: map<Pid, Walk>)

  datatype Act =
    | Tick(clock: Time)
    | PutObject(digest: Digest)
    | EvictObject(digest: Digest)
    | WriteRecord(record: Digest)
    | EvictRecord(record: Digest)
    | Ask(record: Digest)
    | Hit
    | StartWalk(named: set<Digest>, stored: bool)
    | Look(digest: Digest)
    | Mark
    | FinishWalk
    | Interrupt

  /**
    One step of process `p`. A build reads the clock (`Ask`), then either stands
    on the record's recent time (`Hit`) or walks. `stored` marks
    `record_use_of_stored`, which always walks. Looking at an object's time and
    setting it are two calls, between which anything may happen.
   */
  ghost predicate Step(s: State, t: State, p: Pid, act: Act)
  {
    match act
    case Tick(c) => c >= s.clock && t == s.(clock := c)
    case PutObject(d) => t == s.(objects := s.objects[d := s.clock])
    case EvictObject(d) => t == s.(objects := s.objects - {d})
    case WriteRecord(r) => t == s.(records := s.records[r := Stamp(s.clock, None)])
    case EvictRecord(r) => t == s.(records := s.records - {r})
    case Ask(r) => p !in s.walks && t == s.(walks := s.walks[p := Asked(r, s.clock)])
    case Hit =>
      && p in s.walks && s.walks[p].Asked?
      && s.walks[p].record in s.records
      && Recent(s.records[s.walks[p].record].accessed, s.walks[p].now)
      && t == s.(walks := s.walks - {p})
    case StartWalk(named, stored) =>
      && p in s.walks && s.walks[p].Asked?
      && (stored || s.walks[p].record !in s.records
          || !Recent(s.records[s.walks[p].record].accessed, s.walks[p].now))
      && t == s.(walks := s.walks[p := Walking(s.walks[p].record, s.walks[p].now, named, named, None)])
    case Look(d) =>
      && p in s.walks && s.walks[p].Walking? && s.walks[p].stale.None? && d in s.walks[p].todo
      && var stale := d in s.objects && !Recent(s.objects[d], s.walks[p].now);
         t == s.(walks := s.walks[p := s.walks[p].(todo := s.walks[p].todo - {d},
                                                   stale := if stale then Some(d) else None)])
    case Mark =>
      // a file that is gone by now is skipped
      && p in s.walks && s.walks[p].Walking? && s.walks[p].stale.Some?
      && var d := s.walks[p].stale.value;
         t == s.(objects := if d in s.objects then s.objects[d := s.walks[p].now] else s.objects,
                 walks := s.walks[p := s.walks[p].(stale := None)])
    case FinishWalk =>
      && p in s.walks && s.walks[p].Walking? && s.walks[p].todo == {} && s.walks[p].stale.None?
      && t == s.(walks := s.walks - {p},
                 records := if s.walks[p].record in s.records
                            then s.records[s.walks[p].record := Stamp(s.walks[p].now, Some(s.walks[p].reached))]
                            else s.records)
    case Interrupt => t == s.(walks := s.walks - {p})
  }

  ghost predicate Init(s: State)
  {
    && s.clock >= USE_REFRESH && s.walks == map[]
    && forall r :: r in s.records ==> s.records[r].walked.None?
  }

  /** No object is marked with a time further back than `limit`. */
  ghost predicate MarksWithin(s: State, p: Pid, act: Act, limit: Time)
  {
    act.Mark? && p in s.walks ==> s.clock <= s.walks[p].now + limit
  }

  /**
    A use at `used` counts for a walk at `at`: it is recent then, or it is as
    recent as a late mark can leave it.
   */
  predicate CountsAt(used: Time, at: Time, limit: Time) { used + USE_REFRESH > at || used + limit >= at }

  ghost predicate UsedSince(s: State, ds: set<Digest>, at: Time, limit: Time)
  {
    forall d :: d in ds && d in s.objects ==> CountsAt(s.objects[d], at, limit)
  }

  ghost predicate RecordOk(s: State, r: Digest, limit: Time)
  {
    r in s.records && s.records[r].walked.Some? ==>
      s.records[r].accessed <= s.clock && UsedSince(s, s.records[r].walked.value, s.records[r].accessed, limit)
  }

  ghost predicate WalkOk(s: State, p: Pid, limit: Time)
  {
    p in s.walks ==>
      && USE_REFRESH <= s.walks[p].now <= s.clock
      && (s.walks[p].Walking? ==> UsedSince(s, s.walks[p].Through(), s.walks[p].now, limit))
  }

  ghost predicate Inv(s: State, limit: Time)
  {
    && s.clock >= USE_REFRESH
    && (forall r :: RecordOk(s, r, limit))
    && (forall p :: WalkOk(s, p, limit))
  }

  lemma StepKeepsInv(s: State, t: State, p: Pid, act: Act, limit: Time)
    requires Inv(s, limit) && Step(s, t, p, act) && MarksWithin(s, p, act, limit)
    ensures Inv(t, limit)
  {
    assert WalkOk(s, p, limit);
    forall r ensures RecordOk(t, r, limit) {
      assert RecordOk(s, r, limit);
    }
    forall q ensures WalkOk(t, q, limit) {
      assert WalkOk(s, q, limit);
    }
  }

  datatype Event = Event(pid: Pid, act: Act)

  ghost predicate Run(states: seq<State>, events: seq<Event>)
  {
    && |states| == |events| + 1
    && Init(states[0])
    && forall k :: 0 <= k < |events| ==> StepAt(states, events, k)
  }

  ghost predicate StepAt(states: seq<State>, events: seq<Event>, k: nat)
    requires k < |events| < |states|
  {
    Step(states[k], states[k + 1], events[k].pid, events[k].act)
  }

  /** In the whole run, objects are marked at most `limit` after their walk read the clock. */
  ghost predicate Prompt(states: seq<State>, events: seq<Event>, limit: Time)
    requires |states| == |events| + 1
  {
    forall k :: 0 <= k < |events| ==> MarksWithin(states[k], events[k].pid, events[k].act, limit)
  }

  lemma {:induction false} RunKeepsInv(states: seq<State>, events: seq<Event>, limit: Time, k: nat)
    requires Run(states, events) && Prompt(states, events, limit) && k < |states|
    ensures Inv(states[k], limit)
  {
    if k > 0 {
      RunKeepsInv(states, events, limit, k - 1);
      assert StepAt(states, events, k - 1);
      assert MarksWithin(states[k - 1], events[k - 1].pid, events[k - 1].act, limit);
      StepKeepsInv(states[k - 1], states[k], events[k - 1].pid, events[k - 1].act, limit);
    } else {
      forall p ensures WalkOk(states[0], p, limit) { }
    }
  }

  /** What a hit at step `k` stands for: the closure of the record's last walk is younger than twice the interval. */
  ghost predicate StandsAt(states: seq<State>, events: seq<Event>, k: nat)
    requires k < |events| < |states|
  {
    events[k].act.Hit? && events[k].pid in states[k].walks && states[k].walks[events[k].pid].record in states[k].records
    && states[k].records[states[k].walks[events[k].pid].record].walked.Some? ==>
      var walk := states[k].walks[events[k].pid];
      forall d :: d in states[k].records[walk.record].walked.value && d in states[k + 1].objects ==>
        states[k + 1].objects[d] + 2 * USE_REFRESH > walk.now
  }

  /**
    A hit that walks nothing still leaves the closure younger than twice the
    refresh interval, as long as no mark is more than one interval late.
   */
  lemma HitStandsForClosure(states: seq<State>, events: seq<Event>, limit: Time, k: nat)
    requires Run(states, events) && Prompt(states, events, limit) && limit <= USE_REFRESH && k < |events|
    ensures StandsAt(states, events, k)
  {
    RunKeepsInv(states, events, limit, k);
    assert StepAt(states, events, k);
    if events[k].act.Hit? {
      assert RecordOk(states[k], states[k].walks[events[k].pid].record, limit);
    }
  }

  /**
    A hit that walks leaves everything it reached younger than one refresh
    interval, or no older than a late mark can leave it.
   */
  lemma WalkStandsForClosure(states: seq<State>, events: seq<Event>, limit: Time, k: nat)
    requires Run(states, events) && Prompt(states, events, limit) && k < |events| && events[k].act.FinishWalk?
    requires events[k].pid in states[k].walks && states[k].walks[events[k].pid].Walking?
    ensures var walk := states[k].walks[events[k].pid];
            && UsedSince(states[k + 1], walk.reached, walk.now, limit)
            && (limit < USE_REFRESH ==>
                  forall d :: d in walk.reached && d in states[k + 1].objects ==>
                    states[k + 1].objects[d] + USE_REFRESH > walk.now)
            && (walk.record in states[k].records ==>
                  Get(states[k + 1].records, walk.record) == Some(Stamp(walk.now, Some(walk.reached))))
  {
    RunKeepsInv(states, events, limit, k);
    assert StepAt(states, events, k);
    assert WalkOk(states[k], events[k].pid, limit);
  }

  // The condition on late marks is exact.

  /** When the late walk reads the clock, when the prompt one does, and when the hit does. */
  const FIRST: Time := 2 * USE_REFRESH

  function Second(limit: Time): Time { FIRST + limit }

  function Third(limit: Time): Time { Second(limit) + USE_REFRESH - 1 }

  /**
    Process 1 finds object 7 stale and pauses. Process 2 walks record 3 later and
    marks the object. Then process 1 marks it too, with the time it read first.
   */
  function LateEvents(limit: Time): seq<Event>
  {
    [Event(1, Ask(4)), Event(1, StartWalk({7}, true)), Event(1, Look(7)), Event(0, Tick(Second(limit))),
     Event(2, Ask(3)), Event(2, StartWalk({7}, true)), Event(2, Look(7)), Event(2, Mark), Event(2, FinishWalk),
     Event(1, Mark), Event(0, Tick(Third(limit))), Event(2, Ask(3)), Event(2, Hit)]
  }

  function Marking(record: Digest, now: Time): Walk { Walking(record, now, {7}, {}, Some(7)) }

  function LateStates(limit: Time): seq<State>
  {
    var unwalked, walked := map[3 := Stamp(0, None)], map[3 := Stamp(Second(limit), Some({7}))];
    var first, second, third := FIRST, Second(limit), Third(limit);
    var late, later := Marking(4, first), Marking(3, second);
    [State(first, map[7 := 0], unwalked, map[]),
     State(first, map[7 := 0], unwalked, map[1 := Asked(4, first)]),
     State(first, map[7 := 0], unwalked, map[1 := Walking(4, first, {7}, {7}, None)]),
     State(first, map[7 := 0], unwalked, map[1 := late]),
     State(second, map[7 := 0], unwalked, map[1 := late]),
     State(second, map[7 := 0], unwalked, map[1 := late, 2 := Asked(3, second)]),
     State(second, map[7 := 0], unwalked, map[1 := late, 2 := Walking(3, second, {7}, {7}, None)]),
     State(second, map[7 := 0], unwalked, map[1 := late, 2 := later]),
     State(second, map[7 := second], unwalked, map[1 := late, 2 := later.(stale := None)]),
     State(second, map[7 := second], walked, map[1 := late]),
     State(second, map[7 := first], walked, map[1 := late.(stale := None)]),
     State(third, map[7 := first], walked, map[1 := late.(stale := None)]),
     State(third, map[7 := first], walked, map[1 := late.(stale := None), 2 := Asked(3, third)]),
     State(third, map[7 := first], walked, map[1 := late.(stale := None)])]
  }

  lemma LateStart(limit: Time, k: nat)
    requires k < 6
    ensures StepAt(LateStates(limit), LateEvents(limit), k)
  {
    assert {7} - {7} == {};
  }

  lemma LateEnd(limit: Time, k: nat)
    requires 6 <= k < 13
    ensures StepAt(LateStates(limit), LateEvents(limit), k)
  {
    assert {7} - {7} == {};
  }

  lemma LateRun(limit: Time)
    ensures Run(LateStates(limit), LateEvents(limit)) && Prompt(LateStates(limit), LateEvents(limit), limit)
  {
    forall k | 0 <= k < 13 ensures StepAt(LateStates(limit), LateEvents(limit), k) {
      if k < 6 {
        LateStart(limit, k);
      } else {
        LateEnd(limit, k);
      }
    }
  }

  ghost predicate AlwaysStands(limit: Time)
  {
    forall states, events | Run(states, events) && Prompt(states, events, limit) ::
      forall k :: 0 <= k < |events| ==> StandsAt(states, events, k)
  }

  /** Hits stand for closures in every run exactly when no mark is more than one refresh interval late. */
  lemma LateMarksDecide(limit: Time)
    ensures AlwaysStands(limit) <==> limit <= USE_REFRESH
  {
    if limit <= USE_REFRESH {
      forall states, events | Run(states, events) && Prompt(states, events, limit)
        ensures forall k :: 0 <= k < |events| ==> StandsAt(states, events, k)
      {
        forall k | 0 <= k < |events| ensures StandsAt(states, events, k) {
          HitStandsForClosure(states, events, limit, k);
        }
      }
    } else {
      LateRun(limit);
      assert !StandsAt(LateStates(limit), LateEvents(limit), 12);
    }
  }

  /**
    Writing a record proves nothing about its objects: right after a store, a
    hit that walked nothing stands for an object unused for any length of time.
    `record_use_of_stored` exists for this case.
   */
  lemma FreshRecordProvesNothing(age: Time) returns (states: seq<State>, events: seq<Event>)
    ensures Run(states, events)
    ensures events == [Event(1, WriteRecord(3)), Event(1, Ask(3)), Event(1, Hit)]
    ensures Get(states[2].walks, 1) == Some(Asked(3, states[2].clock))
    ensures 7 in states[3].objects && states[3].objects[7] + age < states[2].clock
  {
    var clock := age + 2 * USE_REFRESH;
    var written := map[3 := Stamp(clock, None)];
    events := [Event(1, WriteRecord(3)), Event(1, Ask(3)), Event(1, Hit)];
    states := [State(clock, map[7 := 0], map[], map[]), State(clock, map[7 := 0], written, map[]),
               State(clock, map[7 := 0], written, map[1 := Asked(3, clock)]),
               State(clock, map[7 := 0], written, map[])];
    assert StepAt(states, events, 0) && StepAt(states, events, 1) && StepAt(states, events, 2);
  }
}
