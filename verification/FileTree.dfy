/** A file system whose entries other processes may change between any two calls. Directories are
    known by identity; a path is looked up anew by every call. Each successful call is recorded
    with the worlds just before and just after it. */
module FileTree {
  import opened Wrappers

  type Id = nat
  type Path = seq<string>

  /** `entries` binds a name in a directory to an object. */
  datatype World = World(directories: set<Id>, entries: map<(Id, string), Id>)

  const ROOT: Id := 0

  function Resolve(w: World, path: Path): Option<Id> {
    if path == [] then Some(ROOT)
    else
      var parent := Resolve(w, path[..|path| - 1]);
      if parent.Some? && (parent.value, path[|path| - 1]) in w.entries
      then Some(w.entries[(parent.value, path[|path| - 1])])
      else None
  }

  /** The directory and the name that a path stands for. */
  function Slot(w: World, path: Path): Option<(Id, string)> {
    if path == [] then None
    else
      var parent := Resolve(w, path[..|path| - 1]);
      if parent.Some? && parent.value in w.directories then Some((parent.value, path[|path| - 1])) else None
  }

  predicate DirectoryAt(w: World, path: Path, id: Id) {
    Resolve(w, path) == Some(id) && id in w.directories
  }

  function Listing(w: World, id: Id): set<string> {
    set k | k in w.entries && k.0 == id :: k.1
  }

  /** A rename that refuses an existing destination. */
  predicate CanRename(w: World, src: Path, dst: Path) {
    && Slot(w, src).Some? && Slot(w, src).value in w.entries
    && Slot(w, dst).Some? && Slot(w, dst).value !in w.entries
  }

  function AfterRename(w: World, src: Path, dst: Path): World
    requires CanRename(w, src, dst)
  {
    var s, d := Slot(w, src).value, Slot(w, dst).value;
    w.(entries := (w.entries - {s})[d := w.entries[s]])
  }

  /** Only an empty directory can be removed this way. */
  predicate CanRemove(w: World, path: Path) {
    && Slot(w, path).Some? && Slot(w, path).value in w.entries
    && w.entries[Slot(w, path).value] in w.directories
    && Listing(w, w.entries[Slot(w, path).value]) == {}
  }

  function AfterRemove(w: World, path: Path): World
    requires CanRemove(w, path)
  {
    var s := Slot(w, path).value;
    World(w.directories - {w.entries[s]}, w.entries - {s})
  }

  datatype Event =
    | Verified(path: Path, id: Id)
    | Listed(path: Path, names: set<string>)
    | Permitted(path: Path)
    | Renamed(src: Path, dst: Path)
    | RemovedEmpty(path: Path)
    | RemovedTree(path: Path)

  datatype Step = Step(before: World, event: Event, after: World)

  /** What each call that succeeded did. */
  ghost predicate Sound(step: Step) {
    match step.event
    case Verified(path, id) => DirectoryAt(step.before, path, id) && step.after == step.before
    case Listed(path, names) =>
      && Resolve(step.before, path).Some? && step.after == step.before
      && names == Listing(step.before, Resolve(step.before, path).value)
    case Permitted(path) => step.after == step.before
    case Renamed(src, dst) => CanRename(step.before, src, dst) && step.after == AfterRename(step.before, src, dst)
    case RemovedEmpty(path) => CanRemove(step.before, path) && step.after == AfterRemove(step.before, path)
    case RemovedTree(path) => true
  }

  /** A call that cannot succeed in this world. */
  ghost predicate Impossible(w: World, event: Event) {
    forall w' :: !Sound(Step(w, event, w'))
  }

  /** A call that did not succeed: what it asked for, and how many calls had succeeded before. */
  datatype Denial = Denial(event: Event, position: nat)

  /** The calls that succeeded and those that did not. */
  datatype Log = Log(events: seq<Event>, denied: seq<Denial>) {
    function Then(ok: bool, event: Event): Log {
      if ok then Log(events + [event], denied) else Log(events, denied + [Denial(event, |events|)])
    }
  }

  /** The world after the first `n` steps of a process that is alone. */
  ghost function WorldAfter(origin: World, steps: seq<Step>, n: nat): World
    requires n <= |steps|
  {
    if n == 0 then origin else steps[n - 1].after
  }

  /** Nothing happened before, between or after the steps. */
  ghost predicate Alone(origin: World, steps: seq<Step>, world: World) {
    && (forall i | 0 <= i < |steps| :: steps[i].before == WorldAfter(origin, steps, i))
    && world == WorldAfter(origin, steps, |steps|)
  }

  lemma AloneLonger(origin: World, steps: seq<Step>, step: Step)
    requires Alone(origin, steps, step.before)
    ensures Alone(origin, steps + [step], step.after)
  {
    var longer := steps + [step];
    forall i | 0 <= i < |longer| ensures longer[i].before == WorldAfter(origin, longer, i) {
      if i < |steps| { assert steps[i].before == WorldAfter(origin, steps, i); }
    }
  }

  /** Each denial came somewhere in the steps, and when the process is alone and its calls reliable
      the call could not succeed there. */
  ghost predicate Denied(origin: World, steps: seq<Step>, denied: seq<Denial>, exact: bool) {
    forall d | d in denied ::
      d.position <= |steps| && (exact ==> Impossible(WorldAfter(origin, steps, d.position), d.event))
  }

  lemma DeniedLonger(origin: World, steps: seq<Step>, denied: seq<Denial>, exact: bool, step: Step)
    requires Denied(origin, steps, denied, exact)
    ensures Denied(origin, steps + [step], denied, exact)
  {
    forall d | d in denied
      ensures d.position <= |steps + [step]|
      ensures exact ==> Impossible(WorldAfter(origin, steps + [step], d.position), d.event)
    {
      assert WorldAfter(origin, steps + [step], d.position) == WorldAfter(origin, steps, d.position);
    }
  }

  // ---- runs of a process that is alone ----

  /** The events lead from one world to the other with nothing in between. */
  ghost predicate Run(w: World, events: seq<Event>, w': World)
    decreases events
  {
    if events == [] then w == w'
    else exists m :: Sound(Step(w, events[0], m)) && Run(m, events[1..], w')
  }

  lemma {:induction false} RunSplits(w: World, a: seq<Event>, b: seq<Event>, w': World) returns (m: World)
    requires Run(w, a + b, w')
    ensures Run(w, a, m) && Run(m, b, w')
    decreases a
  {
    if a == [] {
      assert a + b == b;
      m := w;
    } else {
      assert (a + b)[0] == a[0] && (a + b)[1..] == a[1..] + b;
      var next :| Sound(Step(w, a[0], next)) && Run(next, (a + b)[1..], w');
      m := RunSplits(next, a[1..], b, w');
      assert Sound(Step(w, a[0], next)) && Run(next, a[1..], m);
    }
  }

  lemma {:induction false} RunJoins(w: World, a: seq<Event>, m: World, b: seq<Event>, w': World)
    requires Run(w, a, m) && Run(m, b, w')
    ensures Run(w, a + b, w')
    decreases a
  {
    if a == [] {
      assert a + b == b;
    } else {
      assert (a + b)[0] == a[0] && (a + b)[1..] == a[1..] + b;
      var next :| Sound(Step(w, a[0], next)) && Run(next, a[1..], m);
      RunJoins(next, a[1..], m, b, w');
    }
  }

  lemma RunOne(w: World, e: Event, w': World)
    ensures Run(w, [e], w') <==> Sound(Step(w, e, w'))
  {
    assert [e][1..] == [];
    if Sound(Step(w, e, w')) { assert Sound(Step(w, [e][0], w')) && Run(w', [e][1..], w'); }
  }

  /** The log of such a process, from any point on, is a run. */
  lemma {:induction false} StepsRun(origin: World, steps: seq<Step>, events: seq<Event>, world: World, n: nat)
    requires |steps| == |events| && n <= |steps| && Alone(origin, steps, world)
    requires forall i | 0 <= i < |steps| :: steps[i].event == events[i] && Sound(steps[i])
    ensures Run(WorldAfter(origin, steps, n), events[n..], world)
    decreases |steps| - n
  {
    if n < |steps| {
      StepsRun(origin, steps, events, world, n + 1);
      assert events[n..][1..] == events[n + 1..];
      assert Sound(Step(steps[n].before, events[n], steps[n].after));
    }
  }

  class FileSystem {
    var world: World
    ghost var events: seq<Event>
    ghost var steps: seq<Step>
    ghost var denied: seq<Denial>
    /** Whether this process is alone; then the log begins at `origin`. */
    const quiet: bool
    /** Whether a call succeeds whenever it can. */
    const reliable: bool
    ghost const origin: World

    ghost function Logged(): Log
      reads this
    {
      Log(events, denied)
    }

    ghost predicate Valid()
      reads this
    {
      && |steps| == |events|
      && (forall i | 0 <= i < |steps| :: steps[i].event == events[i] && Sound(steps[i]))
      && (quiet ==> Alone(origin, steps, world))
      && Denied(origin, steps, denied, quiet && reliable)
    }

    constructor (world: World, quiet: bool, reliable: bool)
      ensures Valid() && this.world == world && this.quiet == quiet && this.reliable == reliable
      ensures events == [] && steps == [] && denied == []
    {
      this.world, this.quiet, this.reliable, this.origin := world, quiet, reliable, world;
      events, steps, denied := [], [], [];
    }

    /** What others do meanwhile: anything at all, unless this process is alone. */
    method Interfere()
      requires Valid()
      modifies `world
      ensures Valid() && (quiet ==> world == old(world))
    {
      if !quiet { world := *; }
    }

    ghost method Record(event: Event, before: World)
      requires Sound(Step(before, event, world))
      requires |steps| == |events| && forall i | 0 <= i < |steps| :: steps[i].event == events[i] && Sound(steps[i])
      requires quiet ==> Alone(origin, steps, before)
      requires Denied(origin, steps, denied, quiet && reliable)
      modifies `events, `steps
      ensures Valid() && events == old(events) + [event] && old(steps) <= steps
    {
      if quiet { AloneLonger(origin, steps, Step(before, event, world)); }
      DeniedLonger(origin, steps, denied, quiet && reliable, Step(before, event, world));
      events, steps := events + [event], steps + [Step(before, event, world)];
    }

    /** A call that is refused; one that can succeed is only refused by an unreliable system. */
    ghost method Deny(event: Event)
      requires Valid() && (reliable ==> Impossible(world, event))
      modifies `denied
      ensures Valid() && denied == old(denied) + [Denial(event, |events|)]
    {
      denied := denied + [Denial(event, |events|)];
    }

    /** Whether a call fails for reasons of its own. */
    method Fault() returns (trouble: bool)
      ensures reliable ==> !trouble
    {
      trouble := *;
      if reliable { trouble := false; }
    }

    /** An identity check. It can also fail without a mismatch. */
    method Verify(path: Path, id: Id) returns (ok: bool)
      requires Valid()
      modifies this
      ensures old(steps) <= steps
      ensures Valid() && Logged() == old(Logged()).Then(ok, Verified(path, id))
      ensures quiet && reliable ==> world == old(world) && (ok <==> DirectoryAt(world, path, id))
    {
      Interfere();
      var trouble := Fault();
      ok := !trouble && DirectoryAt(world, path, id);
      if ok { Record(Verified(path, id), world); } else { Deny(Verified(path, id)); }
    }

    method ReadDirectory(path: Path) returns (names: Option<set<string>>)
      requires Valid()
      modifies this
      ensures old(steps) <= steps
      ensures Valid()
      ensures Logged() == old(Logged()).Then(names.Some?, Listed(path, if names.Some? then names.value else {}))
    {
      Interfere();
      var trouble := Fault();
      var id := Resolve(world, path);
      if trouble || id.None? {
        Deny(Listed(path, {}));
        return None;
      }
      names := Some(Listing(world, id.value));
      Record(Listed(path, names.value), world);
    }

    /** Looks for a first entry: true, and recorded, when there is none. */
    method ReadEmpty(path: Path) returns (empty: bool)
      requires Valid()
      modifies this
      ensures old(steps) <= steps
      ensures Valid() && Logged() == old(Logged()).Then(empty, Listed(path, {}))
    {
      Interfere();
      var trouble := Fault();
      var id := Resolve(world, path);
      empty := !trouble && id.Some? && Listing(world, id.value) == {};
      if empty { Record(Listed(path, {}), world); } else { Deny(Listed(path, {})); }
    }

    method SetPermissions(path: Path) returns (ok: bool)
      requires Valid()
      modifies this
      ensures old(steps) <= steps
      ensures Valid() && Logged() == old(Logged()).Then(ok, Permitted(path))
      ensures quiet && reliable ==> ok && world == old(world)
    {
      Interfere();
      var trouble := Fault();
      ok := !trouble;
      if ok { Record(Permitted(path), world); } else { Deny(Permitted(path)); }
    }

    /** `rename_entry_noreplace`. */
    method RenameNoReplace(src: Path, dst: Path) returns (ok: bool)
      requires Valid()
      modifies this
      ensures old(steps) <= steps
      ensures Valid() && Logged() == old(Logged()).Then(ok, Renamed(src, dst))
      ensures quiet && reliable ==> (ok <==> CanRename(old(world), src, dst)) && (!ok ==> world == old(world))
    {
      Interfere();
      var trouble := Fault();
      ok := !trouble && CanRename(world, src, dst);
      if ok {
        ghost var before := world;
        world := AfterRename(world, src, dst);
        Record(Renamed(src, dst), before);
      } else {
        Deny(Renamed(src, dst));
      }
    }

    method RemoveDirectory(path: Path) returns (ok: bool)
      requires Valid()
      modifies this
      ensures old(steps) <= steps
      ensures Valid() && Logged() == old(Logged()).Then(ok, RemovedEmpty(path))
    {
      Interfere();
      var trouble := Fault();
      ok := !trouble && CanRemove(world, path);
      if ok {
        ghost var before := world;
        world := AfterRemove(world, path);
        Record(RemovedEmpty(path), before);
      } else {
        Deny(RemovedEmpty(path));
      }
    }

    /** `remove_dir_all`: many calls, of which nothing is known but that it was asked for. */
    method RemoveTree(path: Path) returns (ok: bool)
      requires Valid()
      modifies this
      ensures old(steps) <= steps
      ensures Valid() && events == old(events) + [RemovedTree(path)]
      ensures if ok then denied == old(denied) else !reliable && old(denied) < denied
    {
      Interfere();
      ghost var before := world;
      world := *;
      var trouble := Fault();
      ok := !trouble;
      Record(RemovedTree(path), before);
      if !ok { Deny(RemovedTree(path)); }
    }

    /** Whether a path names anything; `None` when that cannot be told. */
    method Inspect(path: Path) returns (found: Option<bool>)
      requires Valid()
      modifies `world
      ensures Valid()
      ensures quiet && reliable ==> found == Some(Resolve(world, path).Some?) && world == old(world)
    {
      Interfere();
      var trouble := Fault();
      found := if trouble then None else Some(Resolve(world, path).Some?);
    }
  }

  /** A stretch of the log of a process that is alone is a run between the worlds at its ends. */
  twostate lemma NewEventsRun(fs: FileSystem)
    requires fs.quiet && old(fs.Valid()) && fs.Valid() && old(fs.steps) <= fs.steps
    ensures Run(old(fs.world), fs.events[|old(fs.events)|..], fs.world)
  {
    var n := |old(fs.steps)|;
    StepsRun(fs.origin, fs.steps, fs.events, fs.world, n);
  }
}
