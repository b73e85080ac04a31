/**
  The remembered `cargo metadata` answer. A record stands while every pinned
  file has the length and modification time it was pinned with. That proves
  something only because a pin taken too soon after a write is not remembered:
  a timestamp is a time rounded down, and a second write may round to the same.

  Times are nanoseconds since the epoch.
 */
module ProbeCache {
  import opened Cache

  type Path = string
  type Time = int
  type Key = nat

  const SECOND: int := 1_000_000_000
  const FINE_WINDOW: int := 20_000_000
  const COARSE_WINDOW: int := 2 * SECOND
  const PROBE_RECORD_VERSION: nat := 3

  /** A file as the system reports it; `Unreadable` is any error but absence. */
  datatype FileState = Absent | Present(content: nat, len: nat, modified: Time) | Unreadable

  type Disk = map<Path, FileState>

  function StateOf(disk: Disk, path: Path): FileState { if path in disk then disk[path] else Absent }

  /** Length, whole seconds and nanoseconds, or the absence of the file. */
  datatype Stamp = Stamp(len: nat, seconds: nat, nanos: nat)
  datatype Pin = Pin(path: Path, state: Option<Stamp>)

  /** `Pin::describe`: nothing when the file cannot be described, or was modified before the epoch. */
  function Describe(path: Path, state: FileState): Option<Pin>
  {
    match state
    case Absent => Some(Pin(path, None))
    case Present(_, len, modified) =>
      if modified < 0 then None else Some(Pin(path, Some(Stamp(len, modified / SECOND, modified % SECOND))))
    case Unreadable => None
  }

  predicate Holds(pin: Pin, state: FileState) { Describe(pin.path, state) == Some(pin) }

  function WindowOf(nanos: nat): int { if nanos == 0 then COARSE_WINDOW else FINE_WINDOW }

  /** `Pin::is_racy`. */
  predicate IsRacy(pin: Pin, observedAt: Time)
  {
    match pin.state
    case None => false
    case Some(stamp) =>
      var modified := stamp.seconds * SECOND + stamp.nanos;
      observedAt < modified || observedAt - modified < WindowOf(stamp.nanos)
  }

  datatype Roots = Roots(workspaceRoot: Path, targetDir: Path, buildDir: Option<Path>)

  function RootManifest(roots: Roots): Path { roots.workspaceRoot + "/Cargo.toml" }

  datatype Record = Record(version: nat, key: Key, pins: seq<Pin>, roots: Roots)

  /** The pins of a description, or nothing when one file cannot be pinned. */
  function Describes(paths: seq<Path>, disk: Disk): Option<seq<Pin>>
  {
    if paths == [] then Some([]) else
    match (Describes(paths[..|paths| - 1], disk), Describe(paths[|paths| - 1], StateOf(disk, paths[|paths| - 1])))
    case (Some(pins), Some(pin)) => Some(pins + [pin])
    case _ => None
  }

  predicate Pinned(pins: seq<Pin>, path: Path) { exists k :: 0 <= k < |pins| && pins[k].path == path }

  /** The root manifest joins the pins once the probe has named it. */
  function WithManifest(pins: seq<Pin>, manifest: Path, state: FileState): Option<seq<Pin>>
  {
    if Pinned(pins, manifest) then Some(pins)
    else if Describe(manifest, state).Some? then Some(pins + [Describe(manifest, state).value])
    else None
  }

  predicate AnyRacy(pins: seq<Pin>, observedAt: Time) { exists k :: 0 <= k < |pins| && IsRacy(pins[k], observedAt) }

  /** The pins a probe leaves behind, none of them racy. */
  function PinsToRemember(pins: seq<Pin>, observedAt: Time, manifest: Path, state: FileState): Option<seq<Pin>>
  {
    var all := WithManifest(pins, manifest, state);
    if all.None? || AnyRacy(all.value, observedAt) then None else all
  }

  /** The records under the cache directory, and one invocation's dealings with them. */
  class ProbeStore {
    var records: map<Key, Record>

    constructor ()
      ensures records == map[]
    {
      records := map[];
    }

    /** `ProbeRecord::recall`. */
    method Recall(key: Key, disk: Disk) returns (answer: Option<Roots>)
      ensures answer.Some? <==> key in records && Stands(records[key], key, disk)
      ensures answer.Some? ==> answer.value == records[key].roots
    {
      if key !in records {
        return None;
      }
      var recorded := records[key];
      if recorded.version != PROBE_RECORD_VERSION || recorded.key != key {
        return None;
      }
      for k := 0 to |recorded.pins|
        invariant forall j :: 0 <= j < k ==> Holds(recorded.pins[j], StateOf(disk, recorded.pins[j].path))
      {
        if !Holds(recorded.pins[k], StateOf(disk, recorded.pins[k].path)) {
          return None;
        }
      }
      return Some(recorded.roots);
    }

    /** `ProbeRecord::remember`: best effort, so it has no result. */
    method Remember(key: Key, pins: seq<Pin>, observedAt: Time, roots: Roots, disk: Disk)
      modifies this
      ensures var kept := PinsToRemember(pins, observedAt, RootManifest(roots), StateOf(disk, RootManifest(roots)));
              records == if kept.Some? then old(records)[key := Record(PROBE_RECORD_VERSION, key, kept.value, roots)]
                         else old(records)
    {
      var manifest := RootManifest(roots);
      var all := pins;
      if !Pinned(pins, manifest) {
        var pin := Describe(manifest, StateOf(disk, manifest));
        if pin.None? {
          return;
        }
        all := pins + [pin.value];
      }
      assert WithManifest(pins, manifest, StateOf(disk, manifest)) == Some(all);
      for k := 0 to |all|
        invariant forall j :: 0 <= j < k ==> !IsRacy(all[j], observedAt)
      {
        if IsRacy(all[k], observedAt) {
          return;
        }
      }
      records := records[key := Record(PROBE_RECORD_VERSION, key, all, roots)];
    }
  }

  /** `ProbeRecord::describe`: the pins of everything Cargo consults, in order. */
  method DescribeAll(paths: seq<Path>, disk: Disk) returns (pins: Option<seq<Pin>>)
    ensures pins == Describes(paths, disk)
  {
    var taken: seq<Pin> := [];
    for k := 0 to |paths|
      invariant Describes(paths[..k], disk) == Some(taken)
    {
      assert paths[..k + 1][..k] == paths[..k];
      var pin := Describe(paths[k], StateOf(disk, paths[k]));
      if pin.None? {
        DescribesNothing(paths, k + 1, disk);
        return None;
      }
      taken := taken + [pin.value];
    }
    assert paths[..|paths|] == paths;
    return Some(taken);
  }

  lemma {:induction false} DescribesNothing(paths: seq<Path>, k: nat, disk: Disk)
    requires k <= |paths| && Describes(paths[..k], disk) == None
    ensures Describes(paths, disk) == None
    decreases |paths|
  {
    if k < |paths| {
      assert paths[..|paths| - 1][..k] == paths[..k];
      DescribesNothing(paths[..|paths| - 1], k, disk);
    } else {
      assert paths[..k] == paths;
    }
  }

  /** A file as it must be for its pin to prove anything: absent, or written before the window that guards its stamp. */
  predicate Settled(state: FileState, observedAt: Time)
  {
    match state
    case Absent => true
    case Present(_, _, modified) =>
      0 <= modified && modified + (if modified % SECOND == 0 then 2_000_000_000 else 20_000_000) <= observedAt
    case Unreadable => false
  }

  lemma {:induction false} DescribesEach(paths: seq<Path>, disk: Disk)
    ensures Describes(paths, disk).Some? <==>
      forall k :: 0 <= k < |paths| ==> Describe(paths[k], StateOf(disk, paths[k])).Some?
    ensures Describes(paths, disk).Some? ==>
      && |Describes(paths, disk).value| == |paths|
      && forall k :: 0 <= k < |paths| ==>
           Describe(paths[k], StateOf(disk, paths[k])) == Some(Describes(paths, disk).value[k])
  {
    if paths != [] {
      DescribesEach(paths[..|paths| - 1], disk);
    }
  }

  lemma SettledIsNotRacy(path: Path, state: FileState, observedAt: Time)
    ensures Settled(state, observedAt) <==>
      Describe(path, state).Some? && !IsRacy(Describe(path, state).value, observedAt)
  {
    if state.Present? && state.modified >= 0 {
      assert state.modified / SECOND * SECOND + state.modified % SECOND == state.modified;
    }
  }

  /** An answer is remembered exactly when every watched file, and the root manifest after the probe, was settled. */
  lemma RememberedExactly(paths: seq<Path>, before: Disk, observedAt: Time, manifest: Path, state: FileState)
    ensures (Describes(paths, before).Some?
             && PinsToRemember(Describes(paths, before).value, observedAt, manifest, state).Some?)
       <==> (&& (forall k :: 0 <= k < |paths| ==> Settled(StateOf(before, paths[k]), observedAt))
             && (manifest !in paths ==> Settled(state, observedAt)))
  {
    DescribesEach(paths, before);
    forall k | 0 <= k < |paths|
      ensures Settled(StateOf(before, paths[k]), observedAt) <==>
        && Describe(paths[k], StateOf(before, paths[k])).Some?
        && !IsRacy(Describe(paths[k], StateOf(before, paths[k])).value, observedAt)
    {
      SettledIsNotRacy(paths[k], StateOf(before, paths[k]), observedAt);
    }
    if Describes(paths, before).Some? {
      PinsSettled(paths, before, observedAt, manifest, state, Describes(paths, before).value);
    }
  }

  lemma PinsSettled(
    paths: seq<Path>, before: Disk, observedAt: Time, manifest: Path, state: FileState, pins: seq<Pin>)
    requires |pins| == |paths|
    requires forall k :: 0 <= k < |paths| ==> Describe(paths[k], StateOf(before, paths[k])) == Some(pins[k])
    ensures PinsToRemember(pins, observedAt, manifest, state).Some? <==>
      && (forall k :: 0 <= k < |paths| ==> !IsRacy(pins[k], observedAt))
      && (manifest !in paths ==> Settled(state, observedAt))
  {
    forall k | 0 <= k < |pins| ensures pins[k].path == paths[k] {
      assert Describe(paths[k], StateOf(before, paths[k])) == Some(pins[k]);
    }
    assert Pinned(pins, manifest) <==> manifest in paths;
    SettledIsNotRacy(manifest, state, observedAt);
    if !Pinned(pins, manifest) && Describe(manifest, state).Some? {
      var pin := Describe(manifest, state).value;
      var all := pins + [pin];
      assert forall k :: 0 <= k < |pins| ==> all[k] == pins[k];
      assert all[|pins|] == pin;
      assert AnyRacy(all, observedAt) <==> AnyRacy(pins, observedAt) || IsRacy(pin, observedAt) by {
        if AnyRacy(pins, observedAt) {
          var k :| 0 <= k < |pins| && IsRacy(pins[k], observedAt);
          assert IsRacy(all[k], observedAt);
        }
      }
    }
  }

  /** A record answers for a key while all its pins hold. */
  predicate Stands(record: Record, key: Key, disk: Disk)
  {
    && record.version == PROBE_RECORD_VERSION && record.key == key
    && forall k :: 0 <= k < |record.pins| ==> Holds(record.pins[k], StateOf(disk, record.pins[k].path))
  }

  // Files over time

  datatype Change = Change(at: Time, state: FileState)

  /** What happened to one file, oldest first; before its first change it is absent. */
  type Changes = seq<Change>

  function StateAt(changes: Changes, t: Time): FileState
  {
    if changes == [] then Absent
    else if changes[|changes| - 1].at <= t then changes[|changes| - 1].state
    else StateAt(changes[..|changes| - 1], t)
  }

  /** `tick` of a filesystem: writes are stamped with the time rounded down to a multiple of it. */
  function Floor(t: Time, tick: int): Time
    requires tick > 0
  {
    t / tick * tick
  }

  ghost predicate Ordered(changes: Changes) { forall i, j :: 0 <= i < j < |changes| ==> changes[i].at <= changes[j].at }

  ghost predicate StampedBy(changes: Changes, tick: int)
    requires tick > 0
  {
    forall k :: 0 <= k < |changes| && changes[k].state.Present? ==>
      changes[k].state.modified == Floor(changes[k].at, tick)
  }

  /** A write is closer to its stamp than the window that guards the stamp. */
  ghost predicate WindowCatches(tick: int)
    requires tick > 0
  {
    forall t: Time :: t >= 0 ==> t - Floor(t, tick) < WindowOf(Floor(t, tick) % SECOND)
  }

  /** Ticks up to the fine window, and whole seconds up to the coarse one. */
  predicate TickIsGuarded(tick: int) { tick <= FINE_WINDOW || (tick % SECOND == 0 && tick <= COARSE_WINDOW) }

  lemma FloorBounds(t: Time, tick: int)
    requires tick > 0
    ensures Floor(t, tick) <= t < Floor(t, tick) + tick
    ensures t >= 0 ==> Floor(t, tick) >= 0
  {
    assert t == t / tick * tick + t % tick;
    if t >= 0 {
      assert t / tick >= 0;
    }
  }

  lemma MultipleOfSeconds(q: int, tick: int)
    requires tick > 0 && tick % SECOND == 0
    ensures (q * tick) % SECOND == 0
  {
    var n := tick / SECOND;
    assert tick == n * SECOND;
    assert q * tick == (q * n) * SECOND;
  }

  lemma GuardedTickIsCaught(t: Time, tick: int)
    requires tick > 0 && TickIsGuarded(tick) && t >= 0
    ensures t - Floor(t, tick) < WindowOf(Floor(t, tick) % SECOND)
  {
    FloorBounds(t, tick);
    if tick % SECOND == 0 {
      MultipleOfSeconds(t / tick, tick);
    }
  }

  lemma StepsOfTick(a: int, b: int, tick: int)
    requires tick > 0
    ensures a < b ==> a * tick + tick <= b * tick
  {
    if a < b {
      var d := b - a;
      assert b * tick == a * tick + d * tick;
      assert (d - 1) * tick >= 0;
    }
  }

  /** The last instant of the second tick is stamped with the first. */
  lemma LastInstant(tick: int)
    requires tick > 0
    ensures Floor(2 * tick - 1, tick) == tick
  {
    var q := (2 * tick - 1) / tick;
    FloorBounds(2 * tick - 1, tick);
    StepsOfTick(1, q, tick);
    StepsOfTick(q, 1, tick);
  }

  /** The two windows catch every write exactly on filesystems whose tick is guarded. */
  lemma WindowsMatchTicks(tick: int)
    requires tick > 0
    ensures WindowCatches(tick) <==> TickIsGuarded(tick)
  {
    if TickIsGuarded(tick) {
      forall t: Time | t >= 0 ensures t - Floor(t, tick) < WindowOf(Floor(t, tick) % SECOND) {
        GuardedTickIsCaught(t, tick);
      }
    } else {
      LastInstant(tick);
      var t := 2 * tick - 1;
      assert t - Floor(t, tick) >= WindowOf(Floor(t, tick) % SECOND);
    }
  }

  // A pin that holds again

  /** Since when a file has been as it is at `t`: its last change up to then, if any. */
  lemma {:induction false} LastChange(changes: Changes, t: Time) returns (k: int)
    requires Ordered(changes)
    ensures -1 <= k < |changes|
    ensures k >= 0 ==> changes[k].at <= t && StateAt(changes, t) == changes[k].state
    ensures k < 0 ==> StateAt(changes, t).Absent?
    ensures forall u :: (k >= 0 ==> changes[k].at <= u) && u <= t ==> StateAt(changes, u) == StateAt(changes, t)
  {
    if changes == [] {
      k := -1;
    } else if changes[|changes| - 1].at <= t {
      k := |changes| - 1;
    } else {
      k := LastChange(changes[..|changes| - 1], t);
    }
  }

  /**
    A present file that still fits a pin which was not racy at `observedAt` has
    not changed since then, or since the moment before: its last write, whenever
    the pin was taken, is older.
   */
  lemma PinFreezesFile(changes: Changes, tick: int, pin: Pin, observedAt: Time, t: Time, u: Time)
    requires Ordered(changes) && tick > 0 && TickIsGuarded(tick) && StampedBy(changes, tick)
    requires forall k :: 0 <= k < |changes| ==> changes[k].at >= 0
    requires pin.state.Some? && !IsRacy(pin, observedAt) && Holds(pin, StateAt(changes, t))
    requires observedAt - 1 <= u <= t
    ensures StateAt(changes, u) == StateAt(changes, t)
  {
    var k := LastChange(changes, t);
    var at, stamp := changes[k].at, pin.state.value;
    assert changes[k].state.modified == Floor(at, tick);
    assert stamp.seconds * SECOND + stamp.nanos == Floor(at, tick);
    GuardedTickIsCaught(at, tick);
  }

  // Invocations over time

  /** What Cargo can make of a file. */
  datatype Content = Nothing | Bytes(content: nat) | Denied

  function ContentOf(state: FileState): Content
  {
    match state
    case Absent => Nothing
    case Present(content, _, _) => Bytes(content)
    case Unreadable => Denied
  }

  type View = Path -> Content

  /**
    The world the shim runs in: each file's changes, its filesystem's tick, what
    an invocation watches, and Cargo itself. `includes` says whether a
    configuration file names further files, or cannot be read to tell.
   */
  datatype World = World(
    files: Path -> Changes,
    tick: Path -> int,
    watched: Key -> seq<Path>,
    configs: Key -> set<Path>,
    includes: Content -> bool,
    cargo: (Key, View) -> Result<Roots, ()>)
  {
    ghost function At(path: Path, t: Time): FileState { StateAt(files(path), t) }

    ghost function Sight(t: Time): View { path => ContentOf(At(path, t)) }
  }

  ghost predicate Plain(w: World, key: Key, view: View)
  {
    forall path :: path in w.configs(key) ==> !w.includes(view(path))
  }

  /** Two views agree on everything an invocation watches and on one more file. */
  ghost predicate Agree(w: World, key: Key, a: View, b: View, manifest: Path)
  {
    a(manifest) == b(manifest) && forall k :: 0 <= k < |w.watched(key)| ==> a(w.watched(key)[k]) == b(w.watched(key)[k])
  }

  /** Without included files, Cargo's answer is a function of the watched files and the root manifest it names. */
  ghost predicate CargoReadsWatched(w: World)
  {
    forall key, a: View, b: View ::
      Plain(w, key, b) && w.cargo(key, a).Ok? && Agree(w, key, a, b, RootManifest(w.cargo(key, a).value)) ==>
        w.cargo(key, b) == w.cargo(key, a)
  }

  ghost predicate FilesBehave(w: World)
  {
    forall path ::
      && Ordered(w.files(path))
      && (forall k :: 0 <= k < |w.files(path)| ==> w.files(path)[k].at >= 0)
      && w.tick(path) > 0 && TickIsGuarded(w.tick(path)) && StampedBy(w.files(path), w.tick(path))
  }

  ghost predicate WorldOk(w: World)
  {
    && CargoReadsWatched(w) && FilesBehave(w)
    && !w.includes(Nothing)
    && forall key, path :: path in w.configs(key) ==> path in w.watched(key)
  }

  /**
    One invocation: it scans the configuration file by file, takes pins, and from
    `decidedAt` on checks the pins of a record one by one, the one at position `k`
    at `checkedAt(k)`. Then it has an answer, or lets Cargo read each file at some
    moment and remembers.
   */
  datatype Invocation = Invocation(
    key: Key,
    scannedAt: Path -> Time,
    observedAt: Time,
    pins: seq<Pin>,
    decidedAt: Time,
    checkedAt: nat -> Time,
    readAt: Path -> Time,
    finishedAt: Time,
    manifestState: FileState)

  /** One pin for each watched file. When each was taken turns out not to matter. */
  ghost predicate Took(w: World, inv: Invocation)
  {
    && |inv.pins| == |w.watched(inv.key)|
    && forall k :: 0 <= k < |inv.pins| ==> inv.pins[k].path == w.watched(inv.key)[k]
  }

  ghost predicate Scanned(w: World, inv: Invocation)
  {
    forall path :: path in w.configs(inv.key) ==> !w.includes(w.Sight(inv.scannedAt(path))(path))
  }

  ghost predicate InOrder(inv: Invocation)
  {
    && inv.observedAt <= inv.decidedAt <= inv.finishedAt
    && (forall path :: inv.scannedAt(path) <= inv.observedAt <= inv.readAt(path) <= inv.finishedAt)
    && (forall k: nat :: inv.decidedAt <= inv.checkedAt(k))
  }

  /** What Cargo saw while it answered. */
  ghost function Seen(w: World, inv: Invocation): View { path => ContentOf(w.At(path, inv.readAt(path))) }

  ghost function Answer(w: World, inv: Invocation): Result<Roots, ()> { w.cargo(inv.key, Seen(w, inv)) }

  /** The record an invocation that ran the probe leaves, if any. */
  ghost function Left(w: World, inv: Invocation): Option<Record>
  {
    match Answer(w, inv)
    case Err(_) => None
    case Ok(roots) =>
      match PinsToRemember(inv.pins, inv.observedAt, RootManifest(roots), inv.manifestState)
      case None => None
      case Some(pins) => Some(Record(PROBE_RECORD_VERSION, inv.key, pins, roots))
  }

  /** The recaller finds the record standing: each pin holds when it is checked. */
  ghost predicate StandsFor(w: World, record: Record, recaller: Invocation)
  {
    && record.version == PROBE_RECORD_VERSION && record.key == recaller.key
    && forall k :: 0 <= k < |record.pins| ==> Holds(record.pins[k], w.At(record.pins[k].path, recaller.checkedAt(k)))
  }

  /**
    No file pinned as absent comes and goes unseen: absent when its pin is
    checked, it was absent when the recall began and when Cargo read it.
   */
  ghost predicate AbsentStayed(w: World, inv: Invocation, record: Record, recaller: Invocation)
  {
    forall k | 0 <= k < |record.pins| && record.pins[k].state.None?
               && w.At(record.pins[k].path, recaller.checkedAt(k)).Absent? ::
      && w.At(record.pins[k].path, inv.readAt(record.pins[k].path)).Absent?
      && w.At(record.pins[k].path, recaller.decidedAt).Absent?
  }

  /** The disk, as the recaller meets it pin by pin. */
  ghost predicate Meets(w: World, record: Record, recaller: Invocation, disk: Disk)
  {
    forall k :: 0 <= k < |record.pins| ==>
      StateOf(disk, record.pins[k].path) == w.At(record.pins[k].path, recaller.checkedAt(k))
  }

  /** A recall answers, on the disk it meets, exactly when the record stands for it. */
  lemma StandingIsMet(w: World, record: Record, recaller: Invocation, disk: Disk)
    requires Meets(w, record, recaller, disk)
    ensures Stands(record, recaller.key, disk) <==> StandsFor(w, record, recaller)
  {
    forall k | 0 <= k < |record.pins|
      ensures StateOf(disk, record.pins[k].path) == w.At(record.pins[k].path, recaller.checkedAt(k))
    {
    }
  }

  /** A pin that holds at `c` shows that the file is at `t` what Cargo read. */
  lemma PinShowsWhatWasRead(w: World, inv: Invocation, pin: Pin, t: Time, c: Time)
    requires FilesBehave(w) && InOrder(inv) && inv.finishedAt <= t <= c
    requires !IsRacy(pin, inv.observedAt) && Holds(pin, w.At(pin.path, c))
    requires pin.state.None? && w.At(pin.path, c).Absent? ==>
      w.At(pin.path, inv.readAt(pin.path)).Absent? && w.At(pin.path, t).Absent?
    ensures Seen(w, inv)(pin.path) == w.Sight(t)(pin.path)
  {
    if pin.state.Some? {
      PinFreezesFile(w.files(pin.path), w.tick(pin.path), pin, inv.observedAt, c, inv.readAt(pin.path));
      PinFreezesFile(w.files(pin.path), w.tick(pin.path), pin, inv.observedAt, c, t);
    }
  }

  /** Everything watched, and the root manifest, is among a record's pins, and no pin is racy. */
  lemma LeftPinsEverything(w: World, inv: Invocation)
    requires Took(w, inv) && Left(w, inv).Some?
    ensures var record := Left(w, inv).value;
            && Answer(w, inv) == Ok(record.roots) && record.key == inv.key
            && Pinned(record.pins, RootManifest(record.roots))
            && (forall k :: 0 <= k < |w.watched(inv.key)| ==> Pinned(record.pins, w.watched(inv.key)[k]))
            && (forall k :: 0 <= k < |record.pins| ==> !IsRacy(record.pins[k], inv.observedAt))
  {
    var record := Left(w, inv).value;
    var manifest := RootManifest(record.roots);
    assert inv.pins <= record.pins;
    forall k | 0 <= k < |w.watched(inv.key)| ensures Pinned(record.pins, w.watched(inv.key)[k]) {
      assert record.pins[k].path == inv.pins[k].path == w.watched(inv.key)[k];
    }
    if !Pinned(inv.pins, manifest) {
      assert record.pins[|inv.pins|].path == manifest;
    }
  }

  /** The recaller scanned no configuration file earlier than `gap` before the author's pins are dated. */
  ghost predicate ScannedSince(w: World, inv: Invocation, recaller: Invocation, gap: nat)
  {
    forall path :: path in w.configs(recaller.key) ==> inv.observedAt <= recaller.scannedAt(path) + gap
  }

  /** `recaller` takes its answer from the record `inv` left, having scanned at most `gap` too early. */
  ghost predicate RecallsFrom(w: World, inv: Invocation, recaller: Invocation, gap: nat)
  {
    && WorldOk(w) && InOrder(inv) && InOrder(recaller) && Took(w, inv)
    && Left(w, inv).Some? && inv.finishedAt <= recaller.decidedAt
    && Scanned(w, recaller) && ScannedSince(w, inv, recaller, gap)
    && StandsFor(w, Left(w, inv).value, recaller) && AbsentStayed(w, inv, Left(w, inv).value, recaller)
  }

  ghost predicate AnswersAsCargo(w: World, inv: Invocation, recaller: Invocation)
    requires Left(w, inv).Some?
  {
    w.cargo(recaller.key, w.Sight(recaller.decidedAt)) == Ok(Left(w, inv).value.roots)
  }

  /**
    The cache agrees with the probe. A record left by one invocation and
    recalled by another answers what Cargo would answer when the recall began,
    although its pins are checked one after the other and some may have been
    taken only after Cargo had read the file.
   */
  lemma RecallAgrees(w: World, inv: Invocation, recaller: Invocation)
    requires RecallsFrom(w, inv, recaller, 1)
    ensures AnswersAsCargo(w, inv, recaller)
  {
    var record, t := Left(w, inv).value, recaller.decidedAt;
    LeftPinsEverything(w, inv);
    forall path | Pinned(record.pins, path) ensures Seen(w, inv)(path) == w.Sight(t)(path) {
      var k: nat :| k < |record.pins| && record.pins[k].path == path;
      PinShowsWhatWasRead(w, inv, record.pins[k], t, recaller.checkedAt(k));
    }
    StillPlain(w, inv, recaller);
    assert Agree(w, inv.key, Seen(w, inv), w.Sight(t), RootManifest(record.roots));
  }

  /** The recalling invocation's own scan rules out included files at the moment it recalls. */
  lemma StillPlain(w: World, inv: Invocation, recaller: Invocation)
    requires RecallsFrom(w, inv, recaller, 1)
    ensures Plain(w, inv.key, w.Sight(recaller.decidedAt))
  {
    var record, t := Left(w, inv).value, recaller.decidedAt;
    LeftPinsEverything(w, inv);
    forall path | path in w.configs(inv.key) ensures !w.includes(w.Sight(t)(path)) {
      assert path in w.watched(inv.key);
      assert Pinned(record.pins, path);
      var k: nat :| k < |record.pins| && record.pins[k].path == path;
      var c := recaller.checkedAt(k);
      if record.pins[k].state.Some? {
        PinFreezesFile(w.files(path), w.tick(path), record.pins[k], inv.observedAt, c, recaller.scannedAt(path));
        PinFreezesFile(w.files(path), w.tick(path), record.pins[k], inv.observedAt, c, t);
      }
    }
  }

  // Any number of invocations sharing one cache

  /**
    Invocations in any overlap. `from` says which of them took their answer from
    the cache, and whose record that was: one that had finished, and that no
    later one had written over.
   */
  ghost predicate History(w: World, runs: seq<Invocation>, from: seq<Option<nat>>)
  {
    && |from| == |runs|
    && (forall n :: 0 <= n < |runs| ==> InOrder(runs[n]) && Took(w, runs[n]) && Scanned(w, runs[n]))
    && (forall n :: 0 <= n < |runs| && from[n].Some? ==> Recalled(w, runs, from, n, from[n].value))
  }

  ghost predicate Recalled(w: World, runs: seq<Invocation>, from: seq<Option<nat>>, n: nat, i: nat)
    requires |from| == |runs| && n < |runs|
  {
    && WroteBy(w, runs, from, i, runs[n].key, runs[n].decidedAt)
    && (forall j: nat :: WroteBy(w, runs, from, j, runs[n].key, runs[n].decidedAt) ==>
          runs[j].finishedAt <= runs[i].finishedAt)
    && StandsFor(w, Left(w, runs[i]).value, runs[n])
  }

  /** Invocation `i` ran the probe and had left a record under `key` by `t`. */
  ghost predicate WroteBy(w: World, runs: seq<Invocation>, from: seq<Option<nat>>, i: nat, key: Key, t: Time)
    requires |from| == |runs|
  {
    i < |runs| && from[i].None? && runs[i].key == key && Left(w, runs[i]).Some? && runs[i].finishedAt <= t
  }

  /**
    Among any number of overlapping invocations, every recalled answer is what
    Cargo would have answered when the recall began, unless the recaller scanned
    the configuration before the author's pins were dated.
   */
  lemma EveryRecallAgrees(w: World, runs: seq<Invocation>, from: seq<Option<nat>>, n: nat)
    requires WorldOk(w) && History(w, runs, from) && n < |runs| && from[n].Some?
    ensures
      var i := from[n].value;
      && i < |runs| && Left(w, runs[i]).Some?
      && (ScannedSince(w, runs[i], runs[n], 1) && AbsentStayed(w, runs[i], Left(w, runs[i]).value, runs[n]) ==>
            AnswersAsCargo(w, runs[i], runs[n]))
  {
    var i := from[n].value;
    assert Recalled(w, runs, from, n, i);
    assert InOrder(runs[i]) && InOrder(runs[n]) && Scanned(w, runs[n]);
    if ScannedSince(w, runs[i], runs[n], 1) && AbsentStayed(w, runs[i], Left(w, runs[i]).value, runs[n]) {
      RecallAgrees(w, runs[i], runs[n]);
    }
  }

  // Why the recalling scan must not precede the author's pins

  const CONFIG: Path := "c"
  const INCLUDED: Path := "x"
  const MANIFEST: Path := "a/Cargo.toml"
  const HERE := Roots("a", "t", None)
  const THERE := Roots("b", "t", None)

  /** Cargo answers `THERE` once a configuration that includes a file has that file. */
  function ExampleCargo(key: Key, view: View): Result<Roots, ()>
  {
    if view(CONFIG) == Bytes(1) && view(INCLUDED) == Bytes(7) then Ok(THERE) else Ok(HERE)
  }

  /** How the including configuration is written: at `at`, on a filesystem with this tick, so with this stamp. */
  datatype Write = Write(at: nat, tick: nat, stamp: nat)

  ghost predicate Proper(c: Write)
  {
    c.tick > 0 && TickIsGuarded(c.tick) && c.stamp == Floor(c.at, c.tick) && c.stamp % SECOND != 0
  }

  /** The configuration appears with the write `c`, the included file at `x`. */
  function ExampleFiles(c: Write, x: Time, path: Path): Changes
  {
    if path == CONFIG then [Change(c.at, Present(1, 1, c.stamp))]
    else if path == INCLUDED then [Change(x, Present(7, 1, x))]
    else []
  }

  function Example(c: Write, x: Time): World
  {
    World(path => ExampleFiles(c, x, path), path => if path == CONFIG then c.tick else 1, key => [CONFIG],
          key => {CONFIG}, content => content == Bytes(1), ExampleCargo)
  }

  function ConfigPin(c: Write): Pin { Pin(CONFIG, Some(Stamp(1, c.stamp / SECOND, c.stamp % SECOND))) }

  /** An invocation that scanned at `scan`, dated its pins `observed`, and did the rest at `rest`. */
  function ExampleInvocation(c: Write, scan: Time, observed: Time, rest: Time): Invocation
  {
    Invocation(0, path => scan, observed, [ConfigPin(c)], rest, k => rest, path => rest, rest, Absent)
  }

  lemma ExampleAgrees(c: Write, x: nat, key: Key, a: View, b: View, manifest: Path)
    requires Plain(Example(c, x), key, b) && Agree(Example(c, x), key, a, b, manifest)
    ensures ExampleCargo(key, b) == ExampleCargo(key, a)
  {
    assert a(Example(c, x).watched(key)[0]) == b(CONFIG);
    assert !Example(c, x).includes(b(CONFIG));
  }

  lemma ExampleIsOk(c: Write, x: nat)
    requires Proper(c)
    ensures WorldOk(Example(c, x))
  {
    var w := Example(c, x);
    forall path ensures
      && Ordered(w.files(path)) && (forall k :: 0 <= k < |w.files(path)| ==> w.files(path)[k].at >= 0)
      && w.tick(path) > 0 && TickIsGuarded(w.tick(path)) && StampedBy(w.files(path), w.tick(path))
    {
      assert w.files(path) == ExampleFiles(c, x, path);
    }
    forall key: Key, a: View, b: View
      | Plain(w, key, b) && w.cargo(key, a).Ok? && Agree(w, key, a, b, RootManifest(w.cargo(key, a).value))
      ensures w.cargo(key, b) == w.cargo(key, a)
    {
      ExampleAgrees(c, x, key, a, b, RootManifest(w.cargo(key, a).value));
      assert w.cargo(key, a) == ExampleCargo(key, a) && w.cargo(key, b) == ExampleCargo(key, b);
    }
  }

  lemma OneChange(changes: Changes, t: Time)
    requires |changes| == 1
    ensures StateAt(changes, t) == if changes[0].at <= t then changes[0].state else Absent
  {
    assert StateAt(changes[..0], t) == Absent;
  }

  lemma ExampleAt(c: Write, x: nat, t: Time)
    ensures CONFIG != INCLUDED && CONFIG != MANIFEST && INCLUDED != MANIFEST
    ensures Example(c, x).At(CONFIG, t) == if t < c.at then Absent else Present(1, 1, c.stamp)
    ensures Example(c, x).At(INCLUDED, t) == if t < x then Absent else Present(7, 1, x)
    ensures Example(c, x).At(MANIFEST, t) == Absent
  {
    assert CONFIG[0] != INCLUDED[0] && CONFIG[0] != MANIFEST[0] && INCLUDED[0] != MANIFEST[0];
    OneChange(ExampleFiles(c, x, CONFIG), t);
    OneChange(ExampleFiles(c, x, INCLUDED), t);
  }

  function ExampleRecord(c: Write): Record
  {
    Record(PROBE_RECORD_VERSION, 0, [ConfigPin(c), Pin(MANIFEST, None)], HERE)
  }

  lemma ExampleLeft(c: Write, x: nat, scan: Time, observed: Time)
    requires Proper(c) && c.stamp + FINE_WINDOW <= observed < x
    ensures Left(Example(c, x), ExampleInvocation(c, scan, observed, observed)) == Some(ExampleRecord(c))
  {
    var w, inv := Example(c, x), ExampleInvocation(c, scan, observed, observed);
    ExampleAt(c, x, observed);
    assert Seen(w, inv)(INCLUDED) == ContentOf(w.At(INCLUDED, observed)) == Nothing;
    assert Answer(w, inv) == ExampleCargo(0, Seen(w, inv)) == Ok(HERE);
    assert RootManifest(HERE) == MANIFEST;
    var pins := inv.pins + [Pin(MANIFEST, None)];
    assert pins == [ConfigPin(c), Pin(MANIFEST, None)];
    assert !Pinned(inv.pins, MANIFEST);
    assert WithManifest(inv.pins, MANIFEST, Absent) == Some(pins);
    assert c.stamp / SECOND * SECOND + c.stamp % SECOND == c.stamp;
    assert !IsRacy(ConfigPin(c), observed);
    assert !AnyRacy(pins, observed);
    assert PinsToRemember(inv.pins, inv.observedAt, MANIFEST, inv.manifestState) == Some(pins);
  }

  lemma ExampleScans(c: Write, x: nat, scan: Time, observed: Time, rest: Time)
    requires scan < c.at
    ensures Scanned(Example(c, x), ExampleInvocation(c, scan, observed, rest))
  {
    ExampleAt(c, x, scan);
    assert Example(c, x).Sight(scan)(CONFIG) == Nothing;
  }

  lemma ExampleStands(c: Write, x: nat, scan: Time, observed: Time, rest: Time)
    requires c.at <= rest
    ensures StandsFor(Example(c, x), ExampleRecord(c), ExampleInvocation(c, scan, observed, rest))
    ensures AbsentStayed(Example(c, x), ExampleInvocation(c, scan, observed, observed), ExampleRecord(c),
                         ExampleInvocation(c, scan, observed, rest))
  {
    ExampleAt(c, x, rest);
    ExampleAt(c, x, observed);
  }

  lemma ExampleAnswers(c: Write, x: nat, t: Time)
    requires c.at <= t && x <= t
    ensures Example(c, x).cargo(0, Example(c, x).Sight(t)) == Ok(THERE) && HERE != THERE
  {
    var w := Example(c, x);
    ExampleAt(c, x, t);
    assert w.Sight(t)(CONFIG) == Bytes(1) && w.Sight(t)(INCLUDED) == Bytes(7);
    assert w.cargo(0, w.Sight(t)) == ExampleCargo(0, w.Sight(t));
    assert HERE.workspaceRoot[0] != THERE.workspaceRoot[0];
  }

  /**
    A configuration that starts to include files after both scans, with a stamp
    that is not racy, lets the author leave a record that rests on the included
    file, and the recaller miss a change to it.
   */
  lemma MissedInclude(c: Write, scan: nat, observed: nat, decided: nat)
    returns (w: World, inv: Invocation, recaller: Invocation)
    requires Proper(c) && scan < c.at <= observed < decided && c.stamp + FINE_WINDOW <= observed
    ensures Scanned(w, inv) && RecallsFrom(w, inv, recaller, observed - scan) && !AnswersAsCargo(w, inv, recaller)
    ensures inv.observedAt == observed && recaller.decidedAt == decided
    ensures forall path :: recaller.scannedAt(path) == scan
  {
    w := Example(c, decided);
    inv, recaller := ExampleInvocation(c, scan, observed, observed), ExampleInvocation(c, scan, observed, decided);
    ExampleIsOk(c, decided);
    ExampleLeft(c, decided, scan, observed);
    ExampleScans(c, decided, scan, observed, observed);
    ExampleScans(c, decided, scan, observed, decided);
    ExampleStands(c, decided, scan, observed, decided);
    ExampleAnswers(c, decided, decided);
  }

  /** Whatever the times, a scan that is more than the fine window too early can miss such a file. */
  lemma EarlyScanMisses(scan: nat, observed: nat, decided: nat)
    returns (w: World, inv: Invocation, recaller: Invocation)
    requires scan + 2 + FINE_WINDOW <= observed < decided
    ensures Scanned(w, inv) && RecallsFrom(w, inv, recaller, observed - scan) && !AnswersAsCargo(w, inv, recaller)
    ensures inv.observedAt == observed && recaller.decidedAt == decided
    ensures forall path :: recaller.scannedAt(path) == scan
  {
    var at := if (scan + 1) % SECOND == 0 then scan + 2 else scan + 1;
    w, inv, recaller := MissedInclude(Write(at, 1, at), scan, observed, decided);
  }

  ghost predicate AlwaysAgrees(gap: nat)
  {
    forall w, inv, recaller | Scanned(w, inv) && RecallsFrom(w, inv, recaller, gap) :: AnswersAsCargo(w, inv, recaller)
  }

  /**
    Recalls agree in every world exactly when no scan is earlier than the author's
    pins by two instants or more. A stamp can be a whole fine window older than its
    write, so a write just before the pins are dated need not look racy.
   */
  lemma ScanGapDecides(gap: nat)
    ensures AlwaysAgrees(gap) <==> gap <= 1
  {
    if gap <= 1 {
      forall w, inv, recaller | Scanned(w, inv) && RecallsFrom(w, inv, recaller, gap)
        ensures AnswersAsCargo(w, inv, recaller)
      {
        assert RecallsFrom(w, inv, recaller, 1);
        RecallAgrees(w, inv, recaller);
      }
    } else {
      var observed := 3 * FINE_WINDOW;
      var c := Write(observed - 1, FINE_WINDOW, 2 * FINE_WINDOW);
      var w, inv, recaller := MissedInclude(c, observed - 2, observed, observed + 1);
      assert RecallsFrom(w, inv, recaller, gap);
    }
  }
}
