/** `RuntimeCacheLocks` in the source's own form: the vector of held locks, the attempt loop,
    the claim and release procedures and `Drop`, written against system calls that any other
    process may get in between of. Each call is a step of the `InstallerLock` machine, so every
    execution is one of its runs and inherits what those keep. */
module LockSession {
  import opened Wrappers
  import opened InstallerLock
  import opened InstallerLockSafety
  import opened Orders
  import opened Traces

  datatype LockAttempt = Locked(record: Record) | Busy | LockError
  datatype MkdirResult = Created | AlreadyExists | MkdirError
  datatype RemoveResult = Removed | NotFound | RemoveError

  /** `Failed(Some(r))`: stale recovery failed and put the record `r` back. */
  datatype ClaimResult = Claimed | Contended | Failed(restored: Option<Record>)

  datatype ReleaseResult = NotOurs | NotRemoved | Released | KeptMarked | Lost

  datatype Try = Got | Refused | Broken

  /** What a session has met so far: calls that failed for reasons of their own, directories that
      could not be removed for what is in them, and attempts that found the lock taken. */
  datatype History = History(faults: nat, obstacles: nat, refusals: nat) {
    /** `later` follows, with no attempt ended in between. */
    predicate Before(later: History) {
      faults <= later.faults && obstacles <= later.obstacles && refusals == later.refusals
    }

    /** Something went wrong in between. */
    predicate Worse(later: History) {
      Before(later) && (faults < later.faults || obstacles < later.obstacles)
    }
  }

  /** A lock whose guard is free can be taken: nobody has the directory, or a dead installer marked
      it and nothing else is in it. */
  predicate Takeable(dir: Option<Directory>) {
    dir.None? || (dir.value.owner.Marked? && !dir.value.clutter)
  }

  /** The lock of `c` can be taken. */
  ghost predicate Free(w: World, c: Cache) {
    c !in w.guards && Takeable(At(w.dirs, c))
  }

  lemma FreeElsewhere(w: World, w': World, c: Cache, d: Cache)
    requires SameElsewhere(w, w', c) && d != c
    ensures Free(w', d) <==> Free(w, d)
  {
    assert (d in w.dirs <==> d in w.dirs - {c}) && (d in w'.dirs <==> d in w'.dirs - {c});
    assert (d in w.guards <==> d in w.guards - {c}) && (d in w'.guards <==> d in w'.guards - {c});
  }

  /** The first `i` caches were free in `start`, and the others are in `w` if they were. */
  ghost predicate FreeUpTo(start: World, w: World, plan: seq<Cache>, i: nat) {
    && i <= |plan| && (forall j | 0 <= j < i :: Free(start, plan[j]))
    && (forall j | i <= j < |plan| :: Free(w, plan[j]) <==> Free(start, plan[j]))
  }

  lemma FreeUpToNext(start: World, w: World, w': World, plan: seq<Cache>, i: nat)
    requires i < |plan| && Sorted(plan) && FreeUpTo(start, w, plan, i) && Free(w, plan[i])
    requires SameElsewhere(w, w', plan[i])
    ensures FreeUpTo(start, w', plan, i + 1)
  {
    forall j | i < j < |plan| ensures Free(w', plan[j]) <==> Free(start, plan[j]) {
      FreeElsewhere(w, w', plan[i], plan[j]);
    }
  }

  lemma StuckAt(start: World, w: World, plan: seq<Cache>, i: nat)
    requires i < |plan| && FreeUpTo(start, w, plan, i) && !Free(w, plan[i])
    ensures exists c | c in plan :: !Free(start, c)
  {
    assert plan[i] in plan && !Free(start, plan[i]);
  }

  /** The guards are as they were, and the directories but for that of `c`, which is `dir`. */
  ghost predicate Left(w: World, w': World, c: Cache, dir: Option<Directory>) {
    w'.dirs == Put(w.dirs, c, dir) && w'.guards == w.guards
  }

  lemma LeftAsItWas(w: World, w': World, c: Cache)
    ensures Left(w, w', c, At(w.dirs, c)) <==> w'.dirs == w.dirs && w'.guards == w.guards
  {
    assert Put(w.dirs, c, At(w.dirs, c)) == w.dirs;
  }

  lemma LeftThen(w: World, w': World, w'': World, c: Cache, dir: Option<Directory>, dir': Option<Directory>)
    requires Left(w, w', c, dir) && Left(w', w'', c, dir')
    ensures At(w'.dirs, c) == dir && Left(w, w'', c, dir')
  {
  }

  /** The two worlds differ at most at `c`, and in the processes. */
  ghost predicate SameElsewhere(w: World, w': World, c: Cache) {
    w'.dirs - {c} == w.dirs - {c} && w'.guards - {c} == w.guards - {c}
  }

  /** Taking the guard of `c` and then changing things at `c` alone. */
  lemma GuardElsewhere(w: World, p: Pid, w': World, w'': World, c: Cache)
    requires w'.dirs == w.dirs && w'.guards == w.guards[c := p] && c !in w.guards && SameElsewhere(w', w'', c)
    ensures SameElsewhere(w, w'', c) && w'.guards - {c} == w.guards
  {
    assert w'.guards - {c} == w.guards && w.guards - {c} == w.guards;
  }

  lemma LeftElsewhere(w: World, w': World, c: Cache, dir: Option<Directory>)
    requires Left(w, w', c, dir)
    ensures SameElsewhere(w, w', c)
  {
  }

  // ---- where each result of a call leads ----

  function AfterMkdir(stage: ClaimStage, r: MkdirResult): ClaimStage {
    match r
    case Created => WriteOwner
    case AlreadyExists => if stage.Create? then ReadOwner else Leave(true)
    case MkdirError => Leave(false)
  }

  function AfterUnlink(pc: Pc, r: RemoveResult): Pc {
    match pc
    case Claiming(c, record, UnlinkStale(stale)) =>
      Claiming(c, record, if r.Removed? then RemoveStale(stale) else Leave(r.NotFound?))
    case Claiming(c, record, _) => Claiming(c, record, DropDirectory)
    case Releasing(c, record, _) => Releasing(c, record, if r.Removed? then RemoveOwn else UnlockOwn)
    case _ => pc
  }

  function AfterRmdir(pc: Pc, r: RemoveResult): Pc {
    match pc
    case Claiming(c, record, RemoveStale(stale)) =>
      Claiming(c, record, match r case Removed => Recreate case NotFound => Leave(true) case _ => RestoreStale(stale))
    case Claiming(c, record, _) => Claiming(c, record, Leave(false))
    case Releasing(c, record, _) => Releasing(c, record, if r.RemoveError? then RestoreOwn else UnlockOwn)
    case _ => pc
  }

  function AfterWrite(pc: Pc, ok: bool): Pc {
    match pc
    case Claiming(c, record, WriteOwner) => Claiming(c, record, if ok then WriteGuard else DropFile)
    case Claiming(c, record, _) => Claiming(c, record, Leave(false))
    case Releasing(c, record, _) => Releasing(c, record, UnlockOwn)
    case _ => pc
  }

  predicate Unlinking(pc: Pc) {
    || (pc.Claiming? && (pc.claim.UnlinkStale? || pc.claim.DropFile?))
    || (pc.Releasing? && pc.release.UnlinkOwn?)
  }

  predicate RemovingDirectory(pc: Pc) {
    || (pc.Claiming? && (pc.claim.RemoveStale? || pc.claim.DropDirectory?))
    || (pc.Releasing? && pc.release.RemoveOwn?)
  }

  /** The record that the owner file is about to be given. */
  predicate Writing(pc: Pc, record: Record) {
    || (pc.Claiming? && ((pc.claim == WriteOwner && record == pc.record) || pc.claim == RestoreStale(record)))
    || (pc.Releasing? && pc.release.RestoreOwn? && record == pc.record)
  }

  /** The directory after a write of the owner file that went well, or stopped partway, or did
      nothing. */
  function OwnerWritten(before: Option<Directory>, record: Record, ok: bool, partly: bool): (after: Option<Directory>)
    ensures if ok && before.Some? then WriteOk(record, before, after) else WriteFailed(record, before, after)
  {
    if before.None? then before
    else if ok then Some(before.value.(owner := Marked(record)))
    else if partly then Some(before.value.(owner := Garbage))
    else before
  }

  lemma WriteIsAMove(p: Pid, pc: Pc, record: Record, before: Option<Directory>, ok: bool, after: Option<Directory>)
    requires Writing(pc, record)
    requires if ok then WriteOk(record, before, after) else WriteFailed(record, before, after)
    ensures pc.Claiming? ==> AfterWrite(pc, ok).Claiming?
                             && ClaimMove(p, pc.record, pc.claim, before, Next(AfterWrite(pc, ok).claim), after)
    ensures pc.Releasing? ==> AfterWrite(pc, ok).Releasing?
                              && ReleaseMove(pc.record, pc.release, before, AfterWrite(pc, ok).release, after)
  {
  }

  lemma UnlinkIsAMove(p: Pid, pc: Pc, before: Option<Directory>, r: RemoveResult, after: Option<Directory>)
    requires Unlinking(pc) && (if r.Removed? then UnlinkOk(before, after) else after == before)
    requires r.NotFound? ==> before.None? || before.value.owner == NoFile
    ensures pc.Claiming? ==> AfterUnlink(pc, r).Claiming?
                             && ClaimMove(p, pc.record, pc.claim, before, Next(AfterUnlink(pc, r).claim), after)
    ensures pc.Releasing? ==> AfterUnlink(pc, r).Releasing?
                              && ReleaseMove(pc.record, pc.release, before, AfterUnlink(pc, r).release, after)
  {
  }

  function Reversed(locks: seq<Held>): seq<Held> {
    if locks == [] then [] else [locks[|locks| - 1]] + Reversed(locks[..|locks| - 1])
  }

  lemma {:induction false} TakenOff(released: seq<Held>, locks: seq<Held>)
    requires locks != []
    ensures released + Reversed(locks) == (released + [locks[|locks| - 1]]) + Reversed(locks[..|locks| - 1])
  {
  }

  /** Of the directories of `all`, those from index `n` on are gone from `w` unless they hold other
      files, and those before are as in `start`. */
  ghost predicate DroppedDownTo(start: World, w: World, all: seq<Held>, n: nat) {
    && (forall i | 0 <= i < |all| :: all[i].cache in start.dirs)
    && (forall i, j | 0 <= i < j < |all| :: all[i].cache != all[j].cache)
    && (forall i | 0 <= i < n && i < |all| :: At(w.dirs, all[i].cache) == At(start.dirs, all[i].cache))
    && (forall i | n <= i < |all| :: all[i].cache in w.dirs <==> start.dirs[all[i].cache].clutter)
  }

  lemma DroppedOneMore(start: World, w: World, w': World, all: seq<Held>, n: nat)
    requires n < |all| && DroppedDownTo(start, w, all, n + 1) && all[n].cache in w.dirs
    requires var c := all[n].cache; w'.dirs == Put(w.dirs, c, if w.dirs[c].clutter then At(w.dirs, c) else None)
    ensures DroppedDownTo(start, w', all, n)
  {
    forall i | 0 <= i < |all| && i != n ensures At(w'.dirs, all[i].cache) == At(w.dirs, all[i].cache) {
      assert all[i].cache != all[n].cache;
    }
  }

  class RuntimeCacheLocks {
    const me: Pid
    /** Whether this process is alone and no call fails for reasons of its own. */
    const quiet: bool
    var world: World
    var locks: seq<Held>
    ghost var seen: History

    ghost predicate Valid()
      reads this
    {
      Inv(world) && IsInstaller(world, me) && world.procs[me].held == locks
    }

    /** This process is at `pc`, otherwise as it was in `w`. */
    ghost predicate MovedTo(w: World, pc: Pc)
      reads this
    {
      && Inv(world) && IsInstaller(w, me) && me in world.procs
      && world.procs[me] == w.procs[me].(pc := pc)
      && Reaches(Step, w, world)
    }

    // ---- system calls ----
    // Any of them may fail for reasons of its own.

    /** The other processes run: nothing is promised but the machine's own rules. */
    method Interfere()
      requires Inv(world) && IsInstaller(world, me)
      modifies `world, `seen
      ensures Inv(world) && me in world.procs && world.procs[me] == old(world.procs[me])
      ensures Reaches(Step, old(world), world) && seen == old(seen)
      ensures quiet ==> world == old(world)
    {
      ReachesItself(Step, world);
    }

    /** Whether the next call fails for reasons of its own. */
    method Fault() returns (trouble: bool)
      modifies `seen
      ensures quiet ==> !trouble
      ensures seen == if trouble then old(seen).(faults := old(seen).faults + 1) else old(seen)
    {
      trouble := *;
      if quiet { trouble := false; }
      if trouble { seen := seen.(faults := seen.faults + 1); }
    }

    /** This process takes the machine step to `w'`. */
    method Act(w': World)
      requires Inv(world) && IsInstaller(world, me) && StepOf(world, me, w')
      modifies `world, `seen
      ensures world == w' && Inv(world) && seen == old(seen)
      ensures forall w :: Reaches(Step, w, old(world)) ==> Reaches(Step, w, world)
    {
      StepOfKeeps(world, me, w');
      forall w | Reaches(Step, w, world) ensures Reaches(Step, w, w') {
        ReachesNext(Step, w, world, w');
      }
      world := w';
    }

    method TryLockExclusive(c: Cache) returns (r: LockAttempt)
      requires Valid() && Wants(world.procs[me], c)
      modifies `world, `seen
      ensures MovedTo(old(world), if r.Locked? then Claiming(c, r.record, Create) else Ready)
      ensures match r case Locked(_) => seen == old(seen)
                      case Busy => c in world.guards && seen == old(seen).(refusals := old(seen).refusals + 1)
                      case LockError => seen == old(seen).(faults := old(seen).faults + 1)
      ensures quiet ==> (r.Locked? <==> c !in old(world).guards) && !r.LockError? && world.dirs == old(world).dirs
                        && world.guards == if r.Locked? then old(world).guards[c := me] else old(world).guards
    {
      Interfere();
      var trouble := Fault();
      if trouble {
        return LockError;
      }
      if c in world.guards {
        seen := seen.(refusals := seen.refusals + 1);
        return Busy;
      }
      var record := world.nextRecord;
      Act(World(world.procs[me := world.procs[me].(pc := Claiming(c, record, Create))],
                world.guards[c := me], world.dirs, world.nextRecord + 1));
      r := Locked(record);
    }

    method Mkdir(c: Cache) returns (r: MkdirResult)
      requires Valid() && world.procs[me].pc.Claiming? && world.procs[me].pc.cache == c
      requires world.procs[me].pc.claim.Create? || world.procs[me].pc.claim.Recreate?
      modifies `world, `seen
      ensures var pc := old(world).procs[me].pc;
              MovedTo(old(world), pc.(claim := AfterMkdir(pc.claim, r)))
      ensures seen == if r.MkdirError? then old(seen).(faults := old(seen).faults + 1) else old(seen)
      ensures quiet ==> (r.Created? <==> c !in old(world).dirs) && (r.AlreadyExists? <==> c in old(world).dirs)
                        && Left(old(world), world, c, if r.Created? then Some(Directory(me, NoFile, false))
                                                      else At(old(world).dirs, c))
    {
      Interfere();
      var pc := world.procs[me].pc;
      var trouble := Fault();
      r := if trouble then MkdirError else if c in world.dirs then AlreadyExists else Created;
      var dir := if r.Created? then Some(Directory(me, NoFile, false)) else At(world.dirs, c);
      var stage := AfterMkdir(pc.claim, r);
      var w' := world.(procs := world.procs[me := AfterClaim(world.procs[me], c, pc.record, Next(stage))],
                       dirs := Put(world.dirs, c, dir));
      assert ClaimMove(me, pc.record, pc.claim, At(world.dirs, c), Next(stage), dir);
      assert Claim(world, me, w');
      Act(w');
    }

    /** The claim's system call at the current stage had `outcome` and left `dir`. */
    method ActClaim(c: Cache, outcome: ClaimOutcome, dir: Option<Directory>)
      requires Inv(world) && IsInstaller(world, me) && world.procs[me].pc.Claiming? && world.procs[me].pc.cache == c
      requires !world.procs[me].pc.claim.Leave?
      requires ClaimMove(me, world.procs[me].pc.record, world.procs[me].pc.claim, At(world.dirs, c), outcome, dir)
      modifies `world, `seen
      ensures Inv(world) && me in world.procs
      ensures world.procs[me] == AfterClaim(old(world).procs[me], c, old(world).procs[me].pc.record, outcome)
      ensures At(world.dirs, c) == dir && seen == old(seen)
      ensures Left(old(world), world, c, dir)
      ensures forall w :: Reaches(Step, w, old(world)) ==> Reaches(Step, w, world)
    {
      var proc := world.procs[me];
      var w' := world.(procs := world.procs[me := AfterClaim(proc, c, proc.pc.record, outcome)],
                       dirs := Put(world.dirs, c, dir));
      assert Claim(world, me, w');
      Act(w');
    }

    /** The release's system call at the current stage led to `next` and left `dir`. */
    method ActRelease(c: Cache, next: ReleaseStage, dir: Option<Directory>)
      requires Inv(world) && IsInstaller(world, me) && world.procs[me].pc.Releasing? && world.procs[me].pc.cache == c
      requires world.procs[me].pc.release != UnlockOwn
      requires ReleaseMove(world.procs[me].pc.record, world.procs[me].pc.release, At(world.dirs, c), next, dir)
      modifies `world, `seen
      ensures Inv(world) && me in world.procs
      ensures world.procs[me] == old(world).procs[me].(pc := old(world).procs[me].pc.(release := next))
      ensures At(world.dirs, c) == dir && seen == old(seen)
      ensures Left(old(world), world, c, dir)
      ensures forall w :: Reaches(Step, w, old(world)) ==> Reaches(Step, w, world)
    {
      var proc := world.procs[me];
      var w' := world.(procs := world.procs[me := proc.(pc := Releasing(c, proc.pc.record, next))],
                       dirs := Put(world.dirs, c, dir));
      assert Release(world, me, w');
      Act(w');
    }

    /** Reads the owner file; `Some` when it holds a valid record. */
    method ReadOwnerRecord(c: Cache) returns (r: Option<Record>)
      requires Valid() && world.procs[me].pc.Claiming? && world.procs[me].pc.cache == c
      requires world.procs[me].pc.claim.ReadOwner?
      modifies `world, `seen
      ensures MovedTo(old(world), old(world).procs[me].pc.(claim := if r.Some? then UnlinkStale(r.value)
                                                           else Leave(true)))
      ensures r.Some? ==> c in world.dirs && world.dirs[c].owner == Marked(r.value)
      ensures old(seen).Before(seen) && (r.Some? ==> seen == old(seen))
      ensures quiet ==> (r.Some? <==> c in old(world).dirs && old(world).dirs[c].owner.Marked?)
                        && Left(old(world), world, c, At(old(world).dirs, c))
    {
      Interfere();
      var trouble := Fault();
      r := if !trouble && c in world.dirs && world.dirs[c].owner.Marked? then Some(world.dirs[c].owner.record)
          else None;
      ActClaim(c, Next(if r.Some? then UnlinkStale(r.value) else Leave(true)), At(world.dirs, c));
    }

    /** Whether the owner file still holds this process's record. */
    method OwnsRecord(c: Cache) returns (ours: bool)
      requires Valid() && world.procs[me].pc.Releasing? && world.procs[me].pc.cache == c
      requires world.procs[me].pc.release.CheckOwner?
      modifies `world, `seen
      ensures MovedTo(old(world), old(world).procs[me].pc.(release := if ours then UnlinkOwn else UnlockOwn))
      ensures HoldsDirectory(world, me, c, old(world).procs[me].pc.record)
      ensures old(seen).Before(seen)
      ensures quiet ==> ours && Left(old(world), world, c, At(old(world).dirs, c))
    {
      Interfere();
      var trouble := Fault();
      ours := !trouble && c in world.dirs && world.dirs[c].owner == Marked(world.procs[me].pc.record);
      assert ProcOk(world, me);
      ActRelease(c, if ours then UnlinkOwn else UnlockOwn, At(world.dirs, c));
    }

    method RemoveOwnerFile(c: Cache) returns (r: RemoveResult)
      requires Valid() && Unlinking(world.procs[me].pc) && world.procs[me].pc.cache == c
      modifies `world, `seen
      ensures MovedTo(old(world), AfterUnlink(old(world).procs[me].pc, r))
      ensures old(world).procs[me].pc.Releasing? && !r.Removed? ==>
              HoldsDirectory(world, me, c, old(world).procs[me].pc.record)
      ensures seen == if r.RemoveError? then old(seen).(faults := old(seen).faults + 1) else old(seen)
      ensures quiet ==> var before := At(old(world).dirs, c);
                        && (r.Removed? <==> before.Some? && before.value.owner != NoFile) && !r.RemoveError?
                        && Left(old(world), world, c,
                                if r.Removed? then Some(before.value.(owner := NoFile)) else before)
    {
      Interfere();
      var pc := world.procs[me].pc;
      var before := At(world.dirs, c);
      var trouble := Fault();
      r := if trouble then RemoveError else if before.Some? && before.value.owner != NoFile then Removed else NotFound;
      var after := if r.Removed? then Some(before.value.(owner := NoFile)) else before;
      UnlinkIsAMove(me, pc, before, r, after);
      assert ProcOk(world, me);
      if pc.Claiming? {
        ActClaim(c, Next(AfterUnlink(pc, r).claim), after);
      } else {
        ActRelease(c, AfterUnlink(pc, r).release, after);
      }
    }

    method RemoveDirectory(c: Cache) returns (r: RemoveResult)
      requires Valid() && RemovingDirectory(world.procs[me].pc) && world.procs[me].pc.cache == c
      modifies `world, `seen
      ensures MovedTo(old(world), AfterRmdir(old(world).procs[me].pc, r))
      ensures !r.RemoveError? <==> c !in world.dirs
      ensures if r.RemoveError? then old(seen).Worse(seen) else seen == old(seen)
      ensures quiet ==> var before := At(old(world).dirs, c);
                        && (r.NotFound? <==> before.None?) && (r.Removed? <==> Empty(before))
                        && Left(old(world), world, c, if r.Removed? then None else before)
    {
      Interfere();
      var pc := world.procs[me].pc;
      var before := At(world.dirs, c);
      if before.None? {
        r := NotFound;
      } else if !Empty(before) {
        r := RemoveError;
        seen := seen.(obstacles := seen.obstacles + 1);
      } else {
        var trouble := Fault();
        r := if trouble then RemoveError else Removed;
      }
      var after := if r.Removed? then None else before;
      if pc.Claiming? {
        ActClaim(c, Next(AfterRmdir(pc, r).claim), after);
      } else {
        ActRelease(c, AfterRmdir(pc, r).release, after);
      }
    }

    method WriteOwnerFile(c: Cache, record: Record) returns (ok: bool)
      requires Valid() && Writing(world.procs[me].pc, record) && world.procs[me].pc.cache == c
      modifies `world, `seen
      ensures MovedTo(old(world), AfterWrite(old(world).procs[me].pc, ok))
      ensures ok ==> c in world.dirs && world.dirs[c].owner == Marked(record)
      ensures ok && old(world).procs[me].pc.Releasing? ==> HoldsDirectory(world, me, c, record)
      ensures seen == if ok then old(seen) else old(seen).(faults := old(seen).faults + 1)
      ensures quiet ==> var before := At(old(world).dirs, c);
                        && (ok <==> before.Some?)
                        && (ok ==> Left(old(world), world, c, Some(before.value.(owner := Marked(record)))))
    {
      Interfere();
      assert ProcOk(world, me);
      ghost var start := old(world);
      var pc := world.procs[me].pc;
      var before := At(world.dirs, c);
      var trouble: bool, partly: bool := *, *;
      ok := before.Some? && (quiet || !trouble);
      if !ok { seen := seen.(faults := seen.faults + 1); }
      var after := OwnerWritten(before, record, ok, partly);
      WriteIsAMove(me, pc, record, before, ok, after);
      if pc.Claiming? {
        ActClaim(c, Next(AfterWrite(pc, ok).claim), after);
        assert Reaches(Step, start, world);
      } else {
        ActRelease(c, AfterWrite(pc, ok).release, after);
        assert Reaches(Step, start, world);
      }
    }

    /** Records the owner in the guard file; the lock is then held, or abandoned. */
    method WriteGuardRecord(c: Cache) returns (ok: bool)
      requires Valid() && world.procs[me].pc.Claiming? && world.procs[me].pc.cache == c
      requires world.procs[me].pc.claim.WriteGuard?
      modifies `world, `seen
      ensures Inv(world) && me in world.procs && Reaches(Step, old(world), world)
      ensures world.procs[me] == AfterClaim(old(world).procs[me], c, old(world).procs[me].pc.record,
                                            if ok then Acquired else Abandon)
      ensures seen == if ok then old(seen) else old(seen).(faults := old(seen).faults + 1)
      ensures quiet ==> ok && Left(old(world), world, c, At(old(world).dirs, c))
    {
      Interfere();
      var trouble := Fault();
      ok := !trouble;
      ActClaim(c, if ok then Acquired else Abandon, At(world.dirs, c));
    }

    /** Unlocks the guard after a claim that did not succeed. */
    method UnlockGuard(c: Cache)
      requires Valid() && world.procs[me].pc.Claiming? && world.procs[me].pc.cache == c
      requires world.procs[me].pc.claim.Leave?
      modifies `world, `seen
      ensures Inv(world) && me in world.procs && Reaches(Step, old(world), world)
      ensures world.procs[me] == old(world).procs[me].(pc := Ready, acquiring := old(world).procs[me].pc.claim.retry)
      ensures seen == if old(world).procs[me].pc.claim.retry then old(seen).(refusals := old(seen).refusals + 1)
                      else old(seen)
      ensures quiet ==> world.dirs == old(world).dirs && world.guards == old(world).guards - {c}
    {
      Interfere();
      if world.procs[me].pc.claim.retry { seen := seen.(refusals := seen.refusals + 1); }
      var proc := world.procs[me];
      var w' := world.(procs := world.procs[me := proc.(pc := Ready, acquiring := proc.pc.claim.retry)],
                       guards := world.guards - {proc.pc.cache});
      assert LeaveGuard(world, me, w');
      Act(w');
    }

    /** Unlocks the guard at the end of a release. */
    method UnlockReleasedGuard(c: Cache)
      requires Valid() && world.procs[me].pc.Releasing? && world.procs[me].pc.cache == c
      requires world.procs[me].pc.release.UnlockOwn?
      modifies `world, `seen
      ensures MovedTo(old(world), Ready) && seen == old(seen)
      ensures quiet ==> world.dirs == old(world).dirs && world.guards == old(world).guards - {c}
    {
      Interfere();
      var proc := world.procs[me];
      Act(world.(procs := world.procs[me := proc.(pc := Ready)], guards := world.guards - {proc.pc.cache}));
    }

    /** The caller stops acquiring: an error, or no attempt left. */
    method GiveUp()
      requires Valid() && world.procs[me].pc == Ready && world.procs[me].acquiring
      modifies `world, `seen
      ensures Inv(world) && me in world.procs && Reaches(Step, old(world), world)
      ensures world.procs[me] == old(world).procs[me].(acquiring := false) && seen == old(seen)
      ensures quiet ==> world.dirs == old(world).dirs && world.guards == old(world).guards
    {
      Interfere();
      var proc := world.procs[me];
      assert ProcOk(world, me);
      Act(world.(procs := world.procs[me := proc.(acquiring := false)]));
    }

    // ---- the source's procedures ----

    /** The recovery part of `claim_legacy_directory`: removes a directory that a dead installer
        marked and makes a new one. `None`: the new directory is made. */
    method ReclaimStaleDirectory(c: Cache) returns (r: Option<ClaimResult>)
      requires Valid() && world.procs[me].pc.Claiming? && world.procs[me].pc.cache == c
      requires world.procs[me].pc.claim.ReadOwner?
      modifies `world, `seen
      ensures r.Some? ==> !r.value.Claimed?
      ensures MovedTo(old(world), old(world).procs[me].pc.(claim := if r.None? then WriteOwner
                                                           else Leave(r.value.Contended?)))
      ensures r.Some? && r.value.Failed? && r.value.restored.Some? ==>
                c in world.dirs && world.dirs[c].owner == Marked(r.value.restored.value)
      ensures old(seen).Before(seen) && (r.Some? && r.value.Failed? ==> old(seen).Worse(seen))
      ensures quiet && c in old(world).dirs ==> Reclaimed(old(world), c, r.None?)
    {
      ghost var start := world;
      var stale := ReadOwnerRecord(c);
      if stale.None? {
        return Some(Contended);
      }
      ghost var w1 := world;
      r := ReplaceStaleDirectory(c, stale.value);
      ReachesFurther(Step, start, w1, world);
      if quiet && c in start.dirs {
        LeftThen(start, w1, world, c, At(start.dirs, c),
                 if r.None? then Some(Directory(me, NoFile, false)) else At(start.dirs, c));
      }
    }

    /** How the directory of `c` is after an undisturbed recovery: new, if it could be taken, and
        otherwise as it was. */
    ghost predicate Reclaimed(w: World, c: Cache, made: bool)
      reads this
    {
      && (made <==> Takeable(At(w.dirs, c)))
      && Left(w, world, c, if made then Some(Directory(me, NoFile, false)) else At(w.dirs, c))
    }

    method ReplaceStaleDirectory(c: Cache, stale: Record) returns (r: Option<ClaimResult>)
      requires Valid() && world.procs[me].pc.Claiming? && world.procs[me].pc.cache == c
      requires world.procs[me].pc.claim == UnlinkStale(stale)
      modifies `world, `seen
      ensures r.Some? ==> !r.value.Claimed?
      ensures MovedTo(old(world), old(world).procs[me].pc.(claim := if r.None? then WriteOwner
                                                           else Leave(r.value.Contended?)))
      ensures r.Some? && r.value.Failed? && r.value.restored.Some? ==>
                c in world.dirs && world.dirs[c].owner == Marked(r.value.restored.value)
      ensures old(seen).Before(seen) && (r.Some? && r.value.Failed? ==> old(seen).Worse(seen))
      ensures quiet && At(old(world).dirs, c).Some? && old(world).dirs[c].owner == Marked(stale) ==>
                Reclaimed(old(world), c, r.None?)
    {
      ghost var start := world;
      r := ClearStaleDirectory(c, stale);
      if r.Some? {
        return;
      }
      ghost var w1 := world;
      var again := Mkdir(c);
      ReachesFurther(Step, start, w1, world);
      r := match again case Created => None case AlreadyExists => Some(Contended) case MkdirError => Some(Failed(None));
      if quiet && At(start.dirs, c).Some? && start.dirs[c].owner == Marked(stale) {
        LeftThen(start, w1, world, c, None, Some(Directory(me, NoFile, false)));
      }
    }

    /** Unlinks the stale record and removes the directory; when the directory cannot be
        removed, puts the record back. `None`: it is gone. */
    method ClearStaleDirectory(c: Cache, stale: Record) returns (r: Option<ClaimResult>)
      requires Valid() && world.procs[me].pc.Claiming? && world.procs[me].pc.cache == c
      requires world.procs[me].pc.claim == UnlinkStale(stale)
      modifies `world, `seen
      ensures r.Some? ==> !r.value.Claimed?
      ensures MovedTo(old(world), old(world).procs[me].pc.(claim := if r.None? then Recreate
                                                           else Leave(r.value.Contended?)))
      ensures r.Some? && r.value.Failed? && r.value.restored.Some? ==>
                r.value.restored.value == stale && c in world.dirs && world.dirs[c].owner == Marked(stale)
      ensures old(seen).Before(seen) && (r.Some? && r.value.Failed? ==> old(seen).Worse(seen))
      ensures quiet && At(old(world).dirs, c).Some? && old(world).dirs[c].owner == Marked(stale) ==>
                && (r.None? <==> !old(world).dirs[c].clutter)
                && Left(old(world), world, c, if r.None? then None else At(old(world).dirs, c))
    {
      ghost var start := world;
      var unlinked := RemoveOwnerFile(c);
      if !unlinked.Removed? {
        return Some(if unlinked.NotFound? then Contended else Failed(None));
      }
      ghost var w1 := world;
      r := RemoveStaleDirectory(c, stale);
      ReachesFurther(Step, start, w1, world);
      if quiet && At(start.dirs, c).Some? && start.dirs[c].owner == Marked(stale) {
        LeftThen(start, w1, world, c, Some(start.dirs[c].(owner := NoFile)),
                 if r.None? then None else Some(start.dirs[c]));
      }
    }

    method RemoveStaleDirectory(c: Cache, stale: Record) returns (r: Option<ClaimResult>)
      requires Valid() && world.procs[me].pc.Claiming? && world.procs[me].pc.cache == c
      requires world.procs[me].pc.claim == RemoveStale(stale)
      modifies `world, `seen
      ensures r.Some? ==> !r.value.Claimed?
      ensures MovedTo(old(world), old(world).procs[me].pc.(claim := if r.None? then Recreate
                                                           else Leave(r.value.Contended?)))
      ensures r.Some? && r.value.Failed? && r.value.restored.Some? ==>
                r.value.restored.value == stale && c in world.dirs && world.dirs[c].owner == Marked(stale)
      ensures old(seen).Before(seen) && (r.Some? && r.value.Failed? ==> old(seen).Worse(seen))
      ensures quiet && c in old(world).dirs ==>
                && (r.None? <==> Empty(At(old(world).dirs, c)))
                && Left(old(world), world, c,
                        if r.None? then None else Some(old(world).dirs[c].(owner := Marked(stale))))
    {
      ghost var start := world;
      var removed := RemoveDirectory(c);
      if removed.NotFound? {
        return Some(Contended);
      }
      if removed.Removed? {
        return None;
      }
      ghost var w1 := world;
      var failed := RestoreRecord(c, stale);
      ReachesFurther(Step, start, w1, world);
      if quiet && c in start.dirs {
        LeftThen(start, w1, world, c, At(start.dirs, c), Some(start.dirs[c].(owner := Marked(stale))));
      }
      r := Some(failed);
    }

    /** Puts back the record of a directory that could not be removed. */
    method RestoreRecord(c: Cache, stale: Record) returns (r: ClaimResult)
      requires Valid() && world.procs[me].pc.Claiming? && world.procs[me].pc.cache == c
      requires world.procs[me].pc.claim == RestoreStale(stale)
      modifies `world, `seen
      ensures r.Failed? && MovedTo(old(world), old(world).procs[me].pc.(claim := Leave(false)))
      ensures r.restored.Some? ==>
                r.restored.value == stale && c in world.dirs && world.dirs[c].owner == Marked(stale)
      ensures old(seen).Before(seen)
      ensures quiet && c in old(world).dirs ==>
                Left(old(world), world, c, Some(old(world).dirs[c].(owner := Marked(stale))))
    {
      var restored := WriteOwnerFile(c, stale);
      r := Failed(if restored then Some(stale) else None);
    }

    /** `claim_legacy_directory`: makes the directory this process's own, reclaiming one that a
        dead installer marked. It never touches an unmarked directory. Undisturbed, it claims the
        directory exactly when that can be taken, and otherwise leaves it as it was. */
    method ClaimLegacyDirectory(c: Cache, record: Record) returns (r: ClaimResult)
      requires Valid() && world.procs[me].pc == Claiming(c, record, Create)
      modifies `world, `seen
      ensures MovedTo(old(world), Claiming(c, record, if r.Claimed? then WriteGuard else Leave(r.Contended?)))
      ensures r.Claimed? ==> HoldsDirectory(world, me, c, record)
      ensures r.Failed? && r.restored.Some? ==> c in world.dirs && world.dirs[c].owner == Marked(r.restored.value)
      ensures old(seen).Before(seen) && (r.Failed? ==> old(seen).Worse(seen))
      ensures quiet ==> && (r.Claimed? <==> Takeable(At(old(world).dirs, c)))
                        && Left(old(world), world, c, if r.Claimed? then Some(Directory(me, Marked(record), false))
                                                      else At(old(world).dirs, c))
    {
      ghost var start := world;
      var ready := MakeDirectory(c);
      if ready.Some? {
        return ready.value;
      }
      ghost var w1 := world;
      var gone;
      r, gone := MarkDirectory(c, record);
      ReachesFurther(Step, start, w1, world);
      if quiet {
        LeftThen(start, w1, world, c, Some(Directory(me, NoFile, false)), Some(Directory(me, Marked(record), false)));
      }
    }

    /** A directory of its own, new or in place of a stale one. `None`: it is made. */
    method MakeDirectory(c: Cache) returns (r: Option<ClaimResult>)
      requires Valid() && world.procs[me].pc.Claiming? && world.procs[me].pc.cache == c
      requires world.procs[me].pc.claim.Create?
      modifies `world, `seen
      ensures r.Some? ==> !r.value.Claimed?
      ensures MovedTo(old(world), old(world).procs[me].pc.(claim := if r.None? then WriteOwner
                                                           else Leave(r.value.Contended?)))
      ensures r.Some? && r.value.Failed? && r.value.restored.Some? ==>
                c in world.dirs && world.dirs[c].owner == Marked(r.value.restored.value)
      ensures old(seen).Before(seen) && (r.Some? && r.value.Failed? ==> old(seen).Worse(seen))
      ensures quiet ==> Reclaimed(old(world), c, r.None?)
    {
      ghost var start := world;
      var made := Mkdir(c);
      if made.MkdirError? {
        return Some(Failed(None));
      }
      if made.Created? {
        return None;
      }
      ghost var w1 := world;
      r := ReclaimStaleDirectory(c);
      ReachesFurther(Step, start, w1, world);
      if quiet {
        LeftThen(start, w1, world, c, At(start.dirs, c),
                 if r.None? then Some(Directory(me, NoFile, false)) else At(start.dirs, c));
      }
    }

    /** The end of `claim_legacy_directory`: write the record, or clean up. */
    method MarkDirectory(c: Cache, record: Record) returns (r: ClaimResult, gone: bool)
      requires Valid() && world.procs[me].pc == Claiming(c, record, WriteOwner)
      modifies `world, `seen
      ensures r == Claimed || r == Failed(None)
      ensures MovedTo(old(world), Claiming(c, record, if r.Claimed? then WriteGuard else Leave(false)))
      ensures r.Claimed? ==> HoldsDirectory(world, me, c, record)
      ensures gone <==> c !in world.dirs
      ensures old(seen).Before(seen) && (r.Failed? ==> old(seen).Worse(seen))
      ensures quiet ==> r.Claimed? && c in old(world).dirs
                        && Left(old(world), world, c, Some(old(world).dirs[c].(owner := Marked(record))))
    {
      ghost var start := world;
      assert ProcOk(world, me);
      var written := WriteOwnerFile(c, record);
      if written {
        assert ProcOk(world, me);
        return Claimed, false;
      }
      ghost var w1 := world;
      gone := CleanupFailedClaim(c);
      ReachesFurther(Step, start, w1, world);
      r := Failed(None);
    }

    /** `cleanup_failed_legacy_claim`: the file, then the directory; `gone` tells whether that is
        gone. */
    method CleanupFailedClaim(c: Cache) returns (gone: bool)
      requires Valid() && world.procs[me].pc.Claiming? && world.procs[me].pc.cache == c
               && world.procs[me].pc.claim.DropFile?
      modifies `world, `seen
      ensures MovedTo(old(world), old(world).procs[me].pc.(claim := Leave(false)))
      ensures gone <==> c !in world.dirs
      ensures old(seen).Before(seen)
    {
      ghost var start := world;
      var _ := RemoveOwnerFile(c);
      ghost var w1 := world;
      var removed := RemoveDirectory(c);
      ReachesFurther(Step, start, w1, world);
      gone := !removed.RemoveError?;
    }

    /** `release_legacy_directory`: the directory it begins with is this process's own, under its
        own record. Either that directory is gone, or it still or again holds the record; unless
        neither removing it nor putting the record back worked. */
    method ReleaseLegacyDirectory(c: Cache, record: Record) returns (r: ReleaseResult)
      requires Valid() && world.procs[me].pc == Releasing(c, record, CheckOwner)
      modifies `world, `seen
      ensures MovedTo(old(world), Releasing(c, record, UnlockOwn))
      ensures HoldsDirectory(old(world), me, c, record)
      ensures r.Released? ==> c !in world.dirs
      ensures !r.Released? && !r.Lost? ==> HoldsDirectory(world, me, c, record)
      ensures old(seen).Before(seen)
      ensures quiet ==> && (r.Released? <==> !old(world).dirs[c].clutter)
                        && Left(old(world), world, c, if r.Released? then None else At(old(world).dirs, c))
    {
      ghost var start := world;
      assert ProcOk(world, me);
      var ours := OwnsRecord(c);
      if !ours {
        return NotOurs;
      }
      ghost var w1 := world;
      var unlinked := RemoveOwnerFile(c);
      ReachesFurther(Step, start, w1, world);
      if quiet { LeftThen(start, w1, world, c, At(start.dirs, c), Some(start.dirs[c].(owner := NoFile))); }
      if !unlinked.Removed? {
        return NotRemoved;
      }
      ghost var w2 := world;
      r := RemoveReleasedDirectory(c, record);
      ReachesFurther(Step, start, w2, world);
      if quiet {
        LeftThen(start, w2, world, c, Some(start.dirs[c].(owner := NoFile)),
                 if r.Released? then None else Some(start.dirs[c]));
      }
    }

    /** The rest of a release: the directory goes, or gets its record back. */
    method RemoveReleasedDirectory(c: Cache, record: Record) returns (r: ReleaseResult)
      requires Valid() && world.procs[me].pc == Releasing(c, record, RemoveOwn)
      modifies `world, `seen
      ensures MovedTo(old(world), Releasing(c, record, UnlockOwn))
      ensures r.Released? || r.KeptMarked? || r.Lost?
      ensures r.Released? ==> c !in world.dirs
      ensures r.KeptMarked? ==> HoldsDirectory(world, me, c, record)
      ensures old(seen).Before(seen)
      ensures quiet && c in old(world).dirs ==>
                && (r.Released? <==> Empty(At(old(world).dirs, c)))
                && Left(old(world), world, c,
                        if r.Released? then None else Some(old(world).dirs[c].(owner := Marked(record))))
    {
      ghost var start := world;
      var removed := RemoveDirectory(c);
      if !removed.RemoveError? {
        return Released;
      }
      ghost var w1 := world;
      var restored := WriteOwnerFile(c, record);
      ReachesFurther(Step, start, w1, world);
      if quiet && c in start.dirs {
        LeftThen(start, w1, world, c, At(start.dirs, c), Some(start.dirs[c].(owner := Marked(record))));
      }
      r := if restored then KeptMarked else Lost;
    }

    /** `acquire_one`: up to `attempts` tries. On success the lock is pushed; on an error or a
        timeout the vector is as before and nothing new is guarded. It fails only when something
        goes wrong or every try finds the lock taken; undisturbed, it succeeds exactly when the
        guard is free and the directory can be taken. */
    method AcquireOne(c: Cache, attempts: nat) returns (ok: bool)
      requires Valid() && Wants(world.procs[me], c)
      modifies this
      ensures Valid() && Reaches(Step, old(world), world)
      ensures world.procs[me].plan == old(world).procs[me].plan && world.procs[me].pc == Ready
      ensures world.procs[me].acquiring == ok
      ensures ok ==> |locks| == |old(locks)| + 1 && locks[..|old(locks)|] == old(locks)
                     && locks[|old(locks)|].cache == c
      ensures !ok ==> locks == old(locks) && Hindered(old(seen), seen, attempts)
      ensures Grown(old(seen), seen, attempts)
      ensures quiet ==> (ok <==> Free(old(world), c)) && SameElsewhere(old(world), world, c)
    {
      ghost var start := world;
      ReachesItself(Step, world);
      var tries := if attempts == 0 then 1 else attempts;
      var left := tries;
      while left > 0
        invariant Valid() && locks == old(locks) && Reaches(Step, start, world)
        invariant world.procs[me] == start.procs[me]
        invariant 0 <= left <= tries && seen.refusals == old(seen).refusals + tries - left
        invariant old(seen).faults <= seen.faults && old(seen).obstacles <= seen.obstacles
        invariant quiet ==> world.dirs == start.dirs && world.guards == start.guards
        invariant quiet && left < tries ==> !Free(start, c)
      {
        ghost var w1 := world;
        var try := TryOnce(c);
        ReachesFurther(Step, start, w1, world);
        if try == Got {
          return true;
        }
        if try == Broken {
          return false;
        }
        left := left - 1;
      }
      ghost var w2 := world;
      GiveUp();
      ReachesFurther(Step, start, w2, world);
      ok := false;
    }

    /** One turn of that loop. */
    method TryOnce(c: Cache) returns (r: Try)
      requires Valid() && Wants(world.procs[me], c)
      modifies this
      ensures Valid() && Reaches(Step, old(world), world)
      ensures world.procs[me].plan == old(world).procs[me].plan && world.procs[me].pc == Ready
      ensures world.procs[me].acquiring == (r != Broken)
      ensures r == Got ==> |locks| == |old(locks)| + 1 && locks[..|old(locks)|] == old(locks)
                           && locks[|old(locks)|].cache == c && old(seen).Before(seen)
      ensures r == Broken ==> locks == old(locks) && old(seen).Worse(seen)
      ensures r == Refused ==> locks == old(locks) && world.procs[me] == old(world).procs[me]
                               && old(seen).Before(seen.(refusals := old(seen).refusals))
                               && seen.refusals == old(seen).refusals + 1
      ensures quiet ==> && (r == Got <==> Free(old(world), c))
                        && SameElsewhere(old(world), world, c)
                        && (r == Refused ==> world.dirs == old(world).dirs && world.guards == old(world).guards)
    {
      ghost var start := world;
      var attempt := TryLockExclusive(c);
      if attempt.Busy? {
        return Refused;
      }
      ghost var w1 := world;
      if attempt.LockError? {
        GiveUp();
        ReachesFurther(Step, start, w1, world);
        return Broken;
      }
      r := ClaimAndFinish(c, attempt.record);
      ReachesFurther(Step, start, w1, world);
      if quiet { GuardElsewhere(start, me, w1, world, c); }
    }

    /** The turn of an attempt that has the guard. */
    method ClaimAndFinish(c: Cache, record: Record) returns (r: Try)
      requires Valid() && world.procs[me].pc == Claiming(c, record, Create) && world.procs[me].acquiring
      modifies this
      ensures Valid() && Reaches(Step, old(world), world)
      ensures world.procs[me].plan == old(world).procs[me].plan && world.procs[me].pc == Ready
      ensures world.procs[me].acquiring == (r != Broken)
      ensures locks == if r == Got then old(locks) + [Held(c, record)] else old(locks)
      ensures r == Got ==> old(seen).Before(seen)
      ensures r == Broken ==> old(seen).Worse(seen)
      ensures r == Refused ==> && world.procs[me] == old(world).procs[me].(pc := Ready)
                               && old(seen).Before(seen.(refusals := old(seen).refusals))
                               && seen.refusals == old(seen).refusals + 1
      ensures quiet ==> && (r == Got <==> Takeable(At(old(world).dirs, c)))
                        && SameElsewhere(old(world), world, c)
                        && (r != Got ==> world.dirs == old(world).dirs && world.guards == old(world).guards - {c})
    {
      ghost var start := world;
      var claim := ClaimLegacyDirectory(c, record);
      ghost var w1 := world;
      if quiet {
        LeftElsewhere(start, w1, c, At(w1.dirs, c));
        LeftAsItWas(start, w1, c);
      }
      if claim.Claimed? {
        var ok := FinishClaim(c, record);
        ReachesFurther(Step, start, w1, world);
        if quiet { LeftAsItWas(w1, world, c); }
        return if ok then Got else Broken;
      }
      UnlockGuard(c);
      ReachesFurther(Step, start, w1, world);
      r := if claim.Contended? then Refused else Broken;
    }

    /** The end of `acquire_one` for a claimed directory: record the owner and push the lock, or
        give the directory and the guard back. */
    method FinishClaim(c: Cache, record: Record) returns (ok: bool)
      requires Valid() && world.procs[me].pc == Claiming(c, record, WriteGuard)
      modifies this
      ensures Valid() && Reaches(Step, old(world), world)
      ensures world.procs[me].plan == old(world).procs[me].plan && world.procs[me].pc == Ready
      ensures world.procs[me].acquiring == (ok && old(world).procs[me].acquiring)
      ensures locks == if ok then old(locks) + [Held(c, record)] else old(locks)
      ensures old(seen).Before(seen) && (!ok ==> old(seen).Worse(seen))
      ensures quiet ==> ok && Left(old(world), world, c, At(old(world).dirs, c))
    {
      ghost var start := world;
      ok := WriteGuardRecord(c);
      if ok {
        locks := locks + [Held(c, record)];
        return;
      }
      ghost var w1 := world;
      var _ := ReleaseLegacyDirectory(c, record);
      ReachesFurther(Step, start, w1, world);
      ghost var w2 := world;
      UnlockReleasedGuard(c);
      ReachesFurther(Step, start, w2, world);
    }

    /** `Drop`: releases the held locks, last acquired first. Undisturbed, the directories that hold
        no other files are gone then, and the others stay. */
    method Drop() returns (ghost released: seq<Held>)
      requires Valid() && world.procs[me].pc == Ready && !world.procs[me].acquiring
      modifies this
      ensures Valid() && Reaches(Step, old(world), world) && locks == [] && released == Reversed(old(locks))
      ensures forall c | c in world.guards :: world.guards[c] != me
      ensures forall c :: !InCritical(world, me, c)
      ensures old(seen).Before(seen)
      ensures quiet ==> forall h | h in old(locks) ::
                h.cache in old(world).dirs && (h.cache in world.dirs <==> old(world).dirs[h.cache].clutter)
    {
      ghost var start, all := world, locks;
      ReachesItself(Step, world);
      assert ProcOk(world, me);
      released := [];
      while locks != []
        invariant Valid() && Reaches(Step, start, world)
        invariant released + Reversed(locks) == Reversed(all) && old(seen).Before(seen)
        invariant world.procs[me].pc == Ready && !world.procs[me].acquiring && locks <= all
        invariant quiet ==> DroppedDownTo(start, world, all, |locks|)
        decreases |locks|
      {
        ghost var w1, n := world, |locks|;
        TakenOff(released, locks);
        ghost var last := ReleaseLast();
        released := released + [last];
        ReachesFurther(Step, start, w1, world);
        if quiet { DroppedOneMore(start, w1, world, all, n - 1); }
      }
      EndedHoldsNothing(world, me);
    }

    /** One turn of that loop. */
    method ReleaseLast() returns (ghost last: Held)
      requires Valid() && world.procs[me].pc == Ready && !world.procs[me].acquiring && locks != []
      modifies this
      ensures Valid() && Reaches(Step, old(world), world) && old(locks) == locks + [last]
      ensures world.procs[me].pc == Ready && !world.procs[me].acquiring && old(seen).Before(seen)
      ensures quiet ==> && last.cache in old(world).dirs
                        && world.dirs == Put(old(world).dirs, last.cache,
                                             if old(world).dirs[last.cache].clutter then At(old(world).dirs, last.cache)
                                             else None)
    {
      ghost var start := world;
      var held := locks[|locks| - 1];
      last := held;
      DropLast();
      ghost var w1 := world;
      var _ := ReleaseLegacyDirectory(held.cache, held.record);
      ReachesFurther(Step, start, w1, world);
      ghost var w2 := world;
      UnlockReleasedGuard(held.cache);
      ReachesFurther(Step, start, w2, world);
    }

    /** Takes the last lock off the vector to release it. */
    method DropLast()
      requires Valid() && world.procs[me].pc == Ready && !world.procs[me].acquiring && locks != []
      modifies this
      ensures Valid() && Reaches(Step, old(world), world) && locks == old(locks)[..|old(locks)| - 1]
      ensures var last := old(locks)[|old(locks)| - 1];
              world.procs[me] == old(world).procs[me].(held := locks,
                                                       pc := Releasing(last.cache, last.record, CheckOwner))
      ensures seen == old(seen) && (quiet ==> world.dirs == old(world).dirs)
    {
      Interfere();
      var proc := world.procs[me];
      var last := locks[|locks| - 1];
      Act(world.(procs := world.procs[me := proc.(held := proc.held[..|proc.held| - 1],
                                                  pc := Releasing(last.cache, last.record, CheckOwner))]));
      locks := locks[..|locks| - 1];
    }

    /** `RuntimeCacheLocks::acquire`: takes the caches of the plan in order. All or nothing: on
        success every cache requested is this process's alone to use; on failure every lock
        taken on the way is released again. It fails only when something goes wrong or all
        attempts on one cache find it taken; undisturbed, it succeeds exactly when all the locks
        can be taken. */
    method Acquire(requested: seq<Cache>, attempts: nat) returns (ok: bool)
      requires Valid() && locks == [] && world.procs[me].pc == Ready && world.procs[me].acquiring
      requires world.procs[me].plan == Canonical(requested, Earlier)
      modifies this
      ensures Valid() && Reaches(Step, old(world), world)
      ensures ok ==> && (forall i, j | 0 <= i < j < |locks| :: locks[i].cache < locks[j].cache)
                     && (forall c :: c in requested <==> exists i | 0 <= i < |locks| :: locks[i].cache == c)
                     && (forall c | c in requested :: InCritical(world, me, c))
      ensures !ok ==> locks == [] && forall c | c in world.guards :: world.guards[c] != me
      ensures !ok ==> Hindered(old(seen), seen, attempts)
      ensures quiet ==> (ok <==> forall c | c in requested :: Free(old(world), c))
    {
      var plan := world.procs[me].plan;
      PlanIsSorted(requested);
      forall c ensures c in requested <==> c in plan {
        assert c in Elements(requested) <==> c in Elements(plan);
      }
      ok := AcquirePlan(plan, attempts);
      if ok {
        assert ProcOk(world, me);
        forall c | c in plan ensures exists i | 0 <= i < |locks| :: locks[i].cache == c {
          var i :| 0 <= i < |plan| && plan[i] == c;
          assert locks[i].cache == c;
        }
        forall c | c in plan ensures InCritical(world, me, c) {
          var k :| 0 <= k < |plan| && plan[k] == c;
          assert world.procs[me].held[k].cache == c;
        }
      }
    }

    /** The loop over the plan. */
    method AcquirePlan(plan: seq<Cache>, attempts: nat) returns (ok: bool)
      requires Valid() && locks == [] && world.procs[me].pc == Ready && world.procs[me].acquiring
      requires world.procs[me].plan == plan && Sorted(plan)
      modifies this
      ensures Valid() && Reaches(Step, old(world), world)
      ensures ok ==> world.procs[me].plan == plan && world.procs[me].pc == Ready && world.procs[me].acquiring
      ensures ok ==> |locks| == |plan|
      ensures !ok ==> locks == [] && forall c | c in world.guards :: world.guards[c] != me
      ensures !ok ==> Hindered(old(seen), seen, attempts)
      ensures quiet ==> (ok <==> forall c | c in plan :: Free(old(world), c))
    {
      ghost var start := world;
      ReachesItself(Step, world);
      assert ProcOk(world, me);
      for i := 0 to |plan|
        invariant Valid() && Reaches(Step, start, world) && |locks| == i && i <= |plan|
        invariant world.procs[me].plan == plan && world.procs[me].pc == Ready && world.procs[me].acquiring
        invariant old(seen).faults <= seen.faults && old(seen).obstacles <= seen.obstacles
        invariant old(seen).refusals <= seen.refusals
        invariant quiet ==> FreeUpTo(start, world, plan, i)
      {
        ghost var w1 := world;
        var one := AcquireOne(plan[i], attempts);
        ReachesFurther(Step, start, w1, world);
        if !one {
          if quiet { StuckAt(start, w1, plan, i); }
          ghost var w2 := world;
          ghost var _ := Drop();
          ReachesFurther(Step, start, w2, world);
          return false;
        }
        if quiet { FreeUpToNext(start, w1, world, plan, i); }
      }
      ok := true;
    }
  }

  /** Why a lock was not had: something went wrong, or all of the attempts, at least one, found it
      taken. */
  predicate Hindered(before: History, after: History, attempts: nat) {
    || before.faults < after.faults || before.obstacles < after.obstacles
    || (before.refusals + attempts <= after.refusals && before.refusals < after.refusals)
  }

  /** There are never more attempts than that. */
  predicate Grown(before: History, after: History, attempts: nat) {
    && before.faults <= after.faults && before.obstacles <= after.obstacles && before.refusals <= after.refusals
    && (after.refusals <= before.refusals + attempts || (attempts == 0 && after.refusals == before.refusals + 1))
  }

  predicate Earlier(a: Cache, b: Cache) {
    a < b
  }

  /** The plan of `acquire`: the requested caches, each once, in path order. */
  lemma PlanIsSorted(requested: seq<Cache>)
    ensures Sorted(Canonical(requested, Earlier)) && Elements(Canonical(requested, Earlier)) == Elements(requested)
  {
    CanonicalOf(requested, Earlier);
    var plan := Canonical(requested, Earlier);
    forall i, j | 0 <= i < j < |plan| ensures plan[i] < plan[j] {
      assert Earlier(plan[i], plan[j]);
    }
  }
}
