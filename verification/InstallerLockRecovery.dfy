/** What becomes of a lock whose owner died: a marked directory is recovered by the next attempt,
    an unmarked one is never reclaimed. */
module InstallerLockRecovery {
  import opened Wrappers
  import opened InstallerLock
  import opened InstallerLockSafety
  import opened Traces

  // ---- attempts in which no call fails for reasons of its own ----

  /** What a call of the claim does to the directory when it works as it should, and where it leads. */
  function NoFaultClaim(p: Pid, record: Record, stage: ClaimStage, before: Option<Directory>)
    : (ClaimOutcome, Option<Directory>)
    requires !stage.Leave?
  {
    match stage
    case Create =>
      if before.None? then (Next(WriteOwner), Some(Directory(p, NoFile, false))) else (Next(ReadOwner), before)
    case ReadOwner =>
      if before.Some? && before.value.owner.Marked? then (Next(UnlinkStale(before.value.owner.record)), before)
      else (Next(Leave(true)), before)
    case UnlinkStale(stale) =>
      if before.Some? && before.value.owner != NoFile
          then (Next(RemoveStale(stale)), Some(before.value.(owner := NoFile)))
      else (Next(Leave(true)), before)
    case RemoveStale(stale) =>
      if before.None? then (Next(Leave(true)), before)
      else if Empty(before) then (Next(Recreate), None)
      else (Next(RestoreStale(stale)), before)
    case RestoreStale(stale) =>
      (Next(Leave(false)), if before.Some? then Some(before.value.(owner := Marked(stale))) else before)
    case Recreate =>
      if before.None? then (Next(WriteOwner), Some(Directory(p, NoFile, false))) else (Next(Leave(true)), before)
    case WriteOwner =>
      if before.Some? then (Next(WriteGuard), Some(before.value.(owner := Marked(record))))
          else (Next(DropFile), before)
    case DropFile =>
      (Next(DropDirectory), if before.Some? then Some(before.value.(owner := NoFile)) else before)
    case DropDirectory => (Next(Leave(false)), if Empty(before) then None else before)
    case WriteGuard => (Acquired, before)
  }

  lemma NoFaultIsAMove(p: Pid, record: Record, stage: ClaimStage, before: Option<Directory>)
    requires !stage.Leave?
    ensures var (outcome, after) := NoFaultClaim(p, record, stage, before);
            ClaimMove(p, record, stage, before, outcome, after)
  {
  }

  /** An attempt of `p` is under way. */
  ghost predicate Attempting(w: World, p: Pid) {
    && IsInstaller(w, p) && w.procs[p].acquiring
    && var proc := w.procs[p];
    (proc.pc == Ready && |proc.held| < |proc.plan|) || proc.pc.Claiming?
  }

  /** The world after its next call, working as it should. */
  ghost function NoFaultNext(w: World, p: Pid): World
    requires Attempting(w, p)
  {
    var proc := w.procs[p];
    match proc.pc
    case Claiming(c, record, Leave(retry)) =>
      w.(procs := w.procs[p := proc.(pc := Ready, acquiring := retry)], guards := w.guards - {c})
    case Claiming(c, record, stage) =>
      var (outcome, after) := NoFaultClaim(p, record, stage, At(w.dirs, c));
      w.(procs := w.procs[p := AfterClaim(proc, c, record, outcome)], dirs := Put(w.dirs, c, after))
    case _ =>
      var c := proc.plan[|proc.held|];
      if c in w.guards then w
      else World(w.procs[p := proc.(pc := Claiming(c, w.nextRecord, Create))], w.guards[c := p], w.dirs,
                 w.nextRecord + 1)
  }

  ghost predicate NoFaultStep(w: World, p: Pid, w': World) {
    Attempting(w, p) && w' == NoFaultNext(w, p)
  }

  /** They are steps of the machine. */
  lemma NoFaultStepIsAStep(w: World, p: Pid, w': World)
    requires NoFaultStep(w, p, w')
    ensures StepOf(w, p, w')
  {
    var proc := w.procs[p];
    if proc.pc.Claiming? && !proc.pc.claim.Leave? {
      NoFaultIsAMove(p, proc.pc.record, proc.pc.claim, At(w.dirs, proc.pc.cache));
      assert Claim(w, p, w');
    } else if proc.pc.Claiming? {
      assert LeaveGuard(w, p, w');
    } else {
      assert TryLock(w, p, w');
    }
  }

  /** Only `p` acts, and each of its calls works as it should. */
  ghost predicate SoloAttempt(p: Pid, trace: seq<World>) {
    |trace| > 0 && forall i | 0 <= i < |trace| - 1 :: NoFaultStep(trace[i], p, trace[i + 1])
  }

  /** `w`, except that `p` has the guard of `c`, is at `stage` of its claim, and the directory
      of `c` is `dir`. */
  function Midway(w: World, p: Pid, c: Cache, stage: ClaimStage, dir: Option<Directory>): World
    requires p in w.procs && w.procs[p].Installer?
  {
    World(w.procs[p := w.procs[p].(pc := Claiming(c, w.nextRecord, stage))], w.guards[c := p],
          Put(w.dirs, c, dir), w.nextRecord + 1)
  }

  /** In the middle of a claim there is one way on. */
  lemma MidwayNoFault(w: World, p: Pid, c: Cache, stage: ClaimStage, dir: Option<Directory>, w': World)
    requires IsInstaller(w, p) && w.procs[p].acquiring && !stage.Leave?
    requires NoFaultStep(Midway(w, p, c, stage, dir), p, w')
    ensures var (outcome, after) := NoFaultClaim(p, w.nextRecord, stage, dir);
            && (outcome.Next? ==> w' == Midway(w, p, c, outcome.stage, after))
            && (outcome.Acquired? ==>
                  && w'.procs == w.procs[p := w.procs[p].(held := w.procs[p].held + [Held(c, w.nextRecord)],
                                                          pc := Ready)]
                  && w'.guards == w.guards[c := p] && w'.dirs == Put(w.dirs, c, after))
  {
    var m := Midway(w, p, c, stage, dir);
    var (outcome, after) := NoFaultClaim(p, w.nextRecord, stage, dir);
    assert At(m.dirs, c) == dir;
    assert Put(m.dirs, c, after) == Put(w.dirs, c, after);
    assert outcome.Next? || outcome.Acquired?;
  }

  /** The attempt's first call takes the guard. */
  lemma GuardIsTaken(w: World, p: Pid, c: Cache, w': World)
    requires IsInstaller(w, p) && Wants(w.procs[p], c) && c !in w.guards && NoFaultStep(w, p, w')
    ensures w' == Midway(w, p, c, Create, At(w.dirs, c))
  {
    assert Put(w.dirs, c, At(w.dirs, c)) == w.dirs;
  }

  /** `p` has the lock of `c`, with its record in a directory of its own; other directories are as
      they were. */
  ghost predicate HasLock(w: World, p: Pid, c: Cache, w': World)
    requires p in w.procs && w.procs[p].Installer?
  {
    && w'.procs == w.procs[p := w.procs[p].(held := w.procs[p].held + [Held(c, w.nextRecord)], pc := Ready)]
    && InCritical(w', p, c) && HoldsDirectory(w', p, c, w.nextRecord)
    && w'.dirs - {c} == w.dirs - {c}
  }

  /** From an absent directory: four calls. */
  lemma FreeLockIsTaken(w: World, p: Pid, c: Cache, trace: seq<World>)
    requires IsInstaller(w, p) && Wants(w.procs[p], c) && c !in w.guards && c !in w.dirs
    requires SoloAttempt(p, trace) && trace[0] == w && |trace| > 4
    ensures HasLock(w, p, c, trace[4])
  {
    var made, marked := Some(Directory(p, NoFile, false)), Some(Directory(p, Marked(w.nextRecord), false));
    assert NoFaultStep(trace[0], p, trace[0 + 1]) && NoFaultStep(trace[1], p, trace[1 + 1]);
    assert NoFaultStep(trace[2], p, trace[2 + 1]) && NoFaultStep(trace[3], p, trace[3 + 1]);
    GuardIsTaken(w, p, c, trace[1]);
    MidwayNoFault(w, p, c, Create, None, trace[2]);
    MidwayNoFault(w, p, c, WriteOwner, made, trace[3]);
    MidwayNoFault(w, p, c, WriteGuard, marked, trace[4]);
    LockedAfter(w, p, c, marked, trace[4]);
  }

  lemma LockedAfter(w: World, p: Pid, c: Cache, marked: Option<Directory>, w': World)
    requires IsInstaller(w, p) && w.procs[p].pc == Ready && marked == Some(Directory(p, Marked(w.nextRecord), false))
    requires w'.procs == w.procs[p := w.procs[p].(held := w.procs[p].held + [Held(c, w.nextRecord)], pc := Ready)]
    requires w'.dirs == Put(w.dirs, c, marked)
    ensures HasLock(w, p, c, w')
  {
    assert w'.procs[p].held[|w.procs[p].held|] == Held(c, w.nextRecord);
    assert w'.dirs - {c} == w.dirs - {c};
  }

  /** After a marked owner died, every attempt that nobody interferes with and in which no call fails
      ends holding the lock, when the directory holds nothing but the owner file. Before its eighth
      call it has not ended. */
  lemma EveryAttemptRecovers(w: World, p: Pid, c: Cache, trace: seq<World>, k: nat)
    requires IsInstaller(w, p) && Wants(w.procs[p], c)
    requires c !in w.guards && c in w.dirs && w.dirs[c].owner.Marked? && !w.dirs[c].clutter
    requires SoloAttempt(p, trace) && trace[0] == w && 0 < k < |trace| && k <= 8
    ensures k == 8 ==> HasLock(w, p, c, trace[8])
    ensures k < 8 ==> trace[k] == RecoveryAt(w, p, c, k)
  {
    assert NoFaultStep(trace[k - 1], p, trace[k - 1 + 1]);
    if k == 1 {
      GuardIsTaken(w, p, c, trace[1]);
    } else {
      EveryAttemptRecovers(w, p, c, trace, k - 1);
      RecoveryGoesOn(w, p, c, k - 1, trace[k]);
    }
  }

  /** The world after the first `k` calls of a recovery. */
  function RecoveryAt(w: World, p: Pid, c: Cache, k: nat): World
    requires p in w.procs && w.procs[p].Installer? && 0 < k < 8
    requires c in w.dirs && w.dirs[c].owner.Marked?
  {
    var left, stale := w.dirs[c], w.dirs[c].owner.record;
    if k == 1 then Midway(w, p, c, Create, Some(left))
    else if k == 2 then Midway(w, p, c, ReadOwner, Some(left))
    else if k == 3 then Midway(w, p, c, UnlinkStale(stale), Some(left))
    else if k == 4 then Midway(w, p, c, RemoveStale(stale), Some(left.(owner := NoFile)))
    else if k == 5 then Midway(w, p, c, Recreate, None)
    else if k == 6 then Midway(w, p, c, WriteOwner, Some(Directory(p, NoFile, false)))
    else Midway(w, p, c, WriteGuard, Some(Directory(p, Marked(w.nextRecord), false)))
  }

  lemma RecoveryGoesOn(w: World, p: Pid, c: Cache, k: nat, w': World)
    requires IsInstaller(w, p) && Wants(w.procs[p], c) && 0 < k < 8
    requires c in w.dirs && w.dirs[c].owner.Marked? && !w.dirs[c].clutter
    requires NoFaultStep(RecoveryAt(w, p, c, k), p, w')
    ensures k < 7 ==> w' == RecoveryAt(w, p, c, k + 1)
    ensures k == 7 ==> HasLock(w, p, c, w')
  {
    var left, stale := w.dirs[c], w.dirs[c].owner.record;
    if k == 1 { MidwayNoFault(w, p, c, Create, Some(left), w'); }
    else if k == 2 { MidwayNoFault(w, p, c, ReadOwner, Some(left), w'); }
    else if k == 3 { MidwayNoFault(w, p, c, UnlinkStale(stale), Some(left), w'); }
    else if k == 4 { MidwayNoFault(w, p, c, RemoveStale(stale), Some(left.(owner := NoFile)), w'); }
    else if k == 5 { MidwayNoFault(w, p, c, Recreate, None, w'); }
    else if k == 6 { MidwayNoFault(w, p, c, WriteOwner, Some(Directory(p, NoFile, false)), w'); }
    else {
      var marked := Some(Directory(p, Marked(w.nextRecord), false));
      MidwayNoFault(w, p, c, WriteGuard, marked, w');
      LockedAfter(w, p, c, marked, w');
    }
  }

  /** Such an attempt can always go on until then. */
  lemma {:induction false} AttemptGoesOn(w: World, p: Pid, c: Cache, k: nat) returns (trace: seq<World>)
    requires IsInstaller(w, p) && Wants(w.procs[p], c) && k <= 8
    requires c !in w.guards && c in w.dirs && w.dirs[c].owner.Marked? && !w.dirs[c].clutter
    ensures SoloAttempt(p, trace) && |trace| == k + 1 && trace[0] == w
  {
    if k == 0 {
      trace := [w];
    } else {
      var before := AttemptGoesOn(w, p, c, k - 1);
      if k > 1 { EveryAttemptRecovers(w, p, c, before, k - 1); }
      assert Attempting(before[k - 1], p);
      trace := before + [NoFaultNext(before[k - 1], p)];
      forall i | 0 <= i < |trace| - 1 ensures NoFaultStep(trace[i], p, trace[i + 1]) {
        if i < k - 1 { assert NoFaultStep(before[i], p, before[i + 1]); }
      }
    }
  }

  /** So after a marked owner died there is a run in which the lock is recovered. */
  lemma StaleLockIsRecovered(w: World, p: Pid, c: Cache) returns (trace: seq<World>)
    requires IsInstaller(w, p) && Wants(w.procs[p], c)
    requires c !in w.guards && c in w.dirs && w.dirs[c].owner.Marked? && !w.dirs[c].clutter
    ensures Run(trace) && SoloAttempt(p, trace) && trace[0] == w && HasLock(w, p, c, trace[|trace| - 1])
  {
    trace := AttemptGoesOn(w, p, c, 8);
    EveryAttemptRecovers(w, p, c, trace, 8);
    forall i | 0 <= i < |trace| - 1 ensures Step(trace[i], trace[i + 1]) {
      assert NoFaultStep(trace[i], p, trace[i + 1]);
      NoFaultStepIsAStep(trace[i], p, trace[i + 1]);
    }
  }

  /** With other files in the directory every such attempt gives up after seven calls, and all is as
      it was: the record is put back and the guard is left. So it recovers the lock exactly when
      the directory holds nothing else. */
  lemma {:induction false} EveryAttemptGivesUp(w: World, p: Pid, c: Cache, trace: seq<World>, k: nat)
    requires IsInstaller(w, p) && Wants(w.procs[p], c)
    requires c !in w.guards && c in w.dirs && w.dirs[c].owner.Marked? && w.dirs[c].clutter
    requires SoloAttempt(p, trace) && trace[0] == w && 0 < k < |trace| && k <= 7
    ensures k == 7 ==> trace[7] == GivenUp(w, p) && !Attempting(trace[7], p)
    ensures k < 7 ==> trace[k] == GivingUpAt(w, p, c, k)
  {
    assert NoFaultStep(trace[k - 1], p, trace[k - 1 + 1]);
    if k == 1 {
      GuardIsTaken(w, p, c, trace[1]);
    } else {
      EveryAttemptGivesUp(w, p, c, trace, k - 1);
      GivingUpGoesOn(w, p, c, k - 1, trace[k]);
    }
  }

  /** Nothing changed but that the attempt is over and a record name is used up. */
  function GivenUp(w: World, p: Pid): World
    requires p in w.procs && w.procs[p].Installer?
  {
    w.(procs := w.procs[p := w.procs[p].(acquiring := false)], nextRecord := w.nextRecord + 1)
  }

  function GivingUpAt(w: World, p: Pid, c: Cache, k: nat): World
    requires p in w.procs && w.procs[p].Installer? && 0 < k < 7
    requires c in w.dirs && w.dirs[c].owner.Marked?
  {
    var left, stale := w.dirs[c], w.dirs[c].owner.record;
    if k == 1 then Midway(w, p, c, Create, Some(left))
    else if k == 2 then Midway(w, p, c, ReadOwner, Some(left))
    else if k == 3 then Midway(w, p, c, UnlinkStale(stale), Some(left))
    else if k == 4 then Midway(w, p, c, RemoveStale(stale), Some(left.(owner := NoFile)))
    else if k == 5 then Midway(w, p, c, RestoreStale(stale), Some(left.(owner := NoFile)))
    else Midway(w, p, c, Leave(false), Some(left))
  }

  lemma GivingUpGoesOn(w: World, p: Pid, c: Cache, k: nat, w': World)
    requires IsInstaller(w, p) && Wants(w.procs[p], c) && 0 < k < 7 && c !in w.guards
    requires c in w.dirs && w.dirs[c].owner.Marked? && w.dirs[c].clutter
    requires NoFaultStep(GivingUpAt(w, p, c, k), p, w')
    ensures k < 6 ==> w' == GivingUpAt(w, p, c, k + 1)
    ensures k == 6 ==> w' == GivenUp(w, p) && !Attempting(w', p)
  {
    var left, stale := w.dirs[c], w.dirs[c].owner.record;
    if k == 1 { MidwayNoFault(w, p, c, Create, Some(left), w'); }
    else if k == 2 { MidwayNoFault(w, p, c, ReadOwner, Some(left), w'); }
    else if k == 3 { MidwayNoFault(w, p, c, UnlinkStale(stale), Some(left), w'); }
    else if k == 4 { MidwayNoFault(w, p, c, RemoveStale(stale), Some(left.(owner := NoFile)), w'); }
    else if k == 5 { MidwayNoFault(w, p, c, RestoreStale(stale), Some(left.(owner := NoFile)), w'); }
    else { GuardIsLeft(w, p, c, w'); }
  }

  lemma GuardIsLeft(w: World, p: Pid, c: Cache, w': World)
    requires IsInstaller(w, p) && Wants(w.procs[p], c) && c !in w.guards && c in w.dirs
    requires NoFaultStep(Midway(w, p, c, Leave(false), Some(w.dirs[c])), p, w')
    ensures w' == GivenUp(w, p) && !Attempting(w', p)
  {
    assert Put(w.dirs, c, Some(w.dirs[c])) == w.dirs;
    assert w.guards[c := p] - {c} == w.guards;
  }

  // ---- what is never recovered ----

  /** An unmarked directory that nobody is at work on: no legacy installer is inside, and an
      installer that has the guard has not got past reading. */
  ghost predicate Abandoned(w: World, c: Cache) {
    && c in w.dirs && !w.dirs[c].owner.Marked?
    && (forall q | q in w.procs :: w.procs[q] != Legacy(c, Inside))
    && (c in w.guards ==> w.guards[c] in w.procs && OnlyLooking(w.procs[w.guards[c]], c))
  }

  ghost predicate OnlyLooking(proc: Process, c: Cache) {
    && proc.Installer? && proc.pc.Claiming? && proc.pc.cache == c
    && (proc.pc.claim.Create? || proc.pc.claim.ReadOwner? || proc.pc.claim.Leave?)
  }

  /** Nobody may use such a cache, and nobody is releasing it or in the middle of claiming it. */
  lemma NobodyAtWork(w: World, p: Pid, c: Cache)
    requires Inv(w) && Abandoned(w, c)
    ensures !InCritical(w, p, c)
    ensures IsInstaller(w, p) && AtPc(w.procs[p], c) ==> OnlyLooking(w.procs[p], c)
  {
    if p in w.procs {
      assert ProcOk(w, p);
      if InCritical(w, p, c) { CriticalFacts(w, p, c); }
    }
  }

  lemma GuardLeavesAbandoned(w: World, p: Pid, w': World, c: Cache)
    requires Inv(w) && Abandoned(w, c) && TryLock(w, p, w')
    ensures Abandoned(w', c)
  {
    NobodyAtWork(w, p, c);
    assert ProcOk(w, p);
  }

  lemma LeavingLeavesAbandoned(w: World, p: Pid, w': World, c: Cache)
    requires Inv(w) && Abandoned(w, c) && LeaveGuard(w, p, w')
    ensures Abandoned(w', c)
  {
    NobodyAtWork(w, p, c);
    assert ProcOk(w, p);
  }

  lemma ClaimLeavesAbandoned(w: World, p: Pid, w': World, c: Cache)
    requires Inv(w) && Abandoned(w, c) && Claim(w, p, w')
    ensures Abandoned(w', c)
  {
    NobodyAtWork(w, p, c);
    assert ProcOk(w, p);
  }

  lemma ReleaseLeavesAbandoned(w: World, p: Pid, w': World, c: Cache)
    requires Inv(w) && Abandoned(w, c)
    requires StartUnwinding(w, p, w') || Unwind(w, p, w') || Release(w, p, w') || UnlockReleased(w, p, w')
    ensures Abandoned(w', c)
  {
    NobodyAtWork(w, p, c);
    assert ProcOk(w, p);
  }

  lemma LegacyLeavesAbandoned(w: World, p: Pid, w': World, c: Cache)
    requires Inv(w) && Abandoned(w, c) && LegacyMove(w, p, w')
    ensures Abandoned(w', c)
  {
    NobodyAtWork(w, p, c);
  }

  lemma CrashLeavesAbandoned(w: World, p: Pid, w': World, c: Cache)
    requires Inv(w) && Abandoned(w, c) && (Crash(w, p, w') || Arrive(w, p, w'))
    ensures Abandoned(w', c)
  {
  }

  lemma AbandonedStays(w: World, w': World, c: Cache)
    requires Inv(w) && Abandoned(w, c) && Step(w, w')
    ensures Abandoned(w', c)
  {
    if p :| StepOf(w, p, w') {
      if Claim(w, p, w') { ClaimLeavesAbandoned(w, p, w', c); }
      else if TryLock(w, p, w') { GuardLeavesAbandoned(w, p, w', c); }
      else if LeaveGuard(w, p, w') { LeavingLeavesAbandoned(w, p, w', c); }
      else if LegacyMove(w, p, w') { LegacyLeavesAbandoned(w, p, w', c); }
      else if Crash(w, p, w') { CrashLeavesAbandoned(w, p, w', c); }
      else { ReleaseLeavesAbandoned(w, p, w', c); }
    } else if p :| Arrive(w, p, w') {
      CrashLeavesAbandoned(w, p, w', c);
    }
  }

  ghost predicate SafelyAbandoned(w: World, c: Cache) {
    Inv(w) && Abandoned(w, c)
  }

  lemma SafelyAbandonedStays(w: World, w': World, c: Cache)
    requires SafelyAbandoned(w, c) && Step(w, w')
    ensures SafelyAbandoned(w', c)
  {
    StepKeeps(w, w');
    AbandonedStays(w, w', c);
  }

  /** The converse of recovery: whatever runs from there, with any faults or none, the directory
      stays unmarked and nobody ever gets the lock. */
  lemma UnmarkedIsNeverReclaimed(trace: seq<World>, k: nat, c: Cache)
    requires Run(trace) && Inv(trace[0]) && Abandoned(trace[0], c) && k < |trace|
    ensures Abandoned(trace[k], c) && forall p :: !InCritical(trace[k], p, c)
  {
    forall w, w' | SafelyAbandoned(w, c) && Step(w, w') ensures SafelyAbandoned(w', c) {
      SafelyAbandonedStays(w, w', c);
    }
    HoldsThroughout(Step, w => SafelyAbandoned(w, c), trace, k);
    forall p ensures !InCritical(trace[k], p, c) { NobodyAtWork(trace[k], p, c); }
  }

  /** How it comes to that: an installer dies while the directory it has made, or is taking apart,
      holds no record. These are the calls before the record is written, and those between its
      removal and that of the directory. */
  lemma DeathLeavesUnmarked(w: World, p: Pid, c: Cache, w': World)
    requires Inv(w) && Crash(w, p, w') && c in w.guards && w.guards[c] == p
    requires MadeByInstaller(w, c) && !w.dirs[c].owner.Marked?
    ensures Abandoned(w', c)
  {
    forall q | q in w'.procs ensures w'.procs[q] != Legacy(c, Inside) {
      assert ProcOk(w, q);
    }
  }

  /** And such a run: an installer arrives, takes the guard, makes the directory and dies. */
  lemma AbandonedRun(w: World, p: Pid, c: Cache) returns (trace: seq<World>)
    requires Initial(w)
    ensures Run(trace) && trace[0] == w && Abandoned(trace[|trace| - 1], c)
  {
    var proc := Installer([c], [], true, Ready);
    var w1 := w.(procs := w.procs[p := proc]);
    assert Arrive(w, p, w1);
    assert Attempting(w1, p);
    var w2 := NoFaultNext(w1, p);
    GuardIsTaken(w1, p, c, w2);
    NoFaultStepIsAStep(w1, p, w2);
    var w3 := NoFaultNext(w2, p);
    MidwayNoFault(w1, p, c, Create, None, w3);
    NoFaultStepIsAStep(w2, p, w3);
    var w4 := w3.(procs := w3.procs[p := Dead(w3.procs[p])], guards := map[]);
    assert Crash(w3, p, w4);
    assert StepOf(w3, p, w4);
    trace := [w, w1, w2, w3, w4];
  }
}
