/** The installer's runtime-cache lock as a state machine over an abstract file system
    (crates/jig-bootstrap/src/runtime_cache_lock.rs). Any number of installers, legacy
    mkdir-only installers and crashes interleave, one system call at a time. A cache is the
    rank of its lock path in path order. Two things are taken from the environment: owner
    records are unique (`nextRecord`), and nobody unlinks a guard file, so a guard is a plain
    exclusive lock that its holder's death frees. */
module InstallerLock {
  import opened Wrappers

  type Pid = nat
  type Cache = nat
  type Record = nat

  /** What `owner-v1` holds: nothing, text that is not a valid record, or a record. */
  datatype OwnerFile = NoFile | Garbage | Marked(record: Record)

  /** A lock directory. `maker` is history: no step reads it. `clutter` is any other file in
      the directory, which makes `rmdir` fail. */
  datatype Directory = Directory(maker: Pid, owner: OwnerFile, clutter: bool)

  datatype ClaimStage =
    | Create
    | ReadOwner
    | UnlinkStale(stale: Record)
    | RemoveStale(stale: Record)
    | RestoreStale(stale: Record)
    | Recreate
    | WriteOwner
    | DropFile
    | DropDirectory
    | WriteGuard
    | Leave(retry: bool)

  datatype ReleaseStage = CheckOwner | UnlinkOwn | RemoveOwn | RestoreOwn | UnlockOwn

  datatype Pc =
    | Ready
    | Claiming(cache: Cache, record: Record, claim: ClaimStage)
    | Releasing(cache: Cache, record: Record, release: ReleaseStage)
    | Ended

  datatype Held = Held(cache: Cache, record: Record)

  datatype LegacyPc = Waiting | Inside | Gone

  /** An installer holds a prefix of its sorted, duplicate-free plan. It acquires until it is
      told to unwind, by an error, a timeout or the drop of its locks. */
  datatype Process =
    | Installer(plan: seq<Cache>, held: seq<Held>, acquiring: bool, pc: Pc)
    | Legacy(cache: Cache, legacyPc: LegacyPc)

  datatype World = World(procs: map<Pid, Process>, guards: map<Cache, Pid>, dirs: map<Cache, Directory>,
                         nextRecord: Record)

  predicate Sorted(plan: seq<Cache>) {
    forall i, j | 0 <= i < j < |plan| :: plan[i] < plan[j]
  }

  function At(dirs: map<Cache, Directory>, c: Cache): Option<Directory> {
    if c in dirs then Some(dirs[c]) else None
  }

  function Put(dirs: map<Cache, Directory>, c: Cache, dir: Option<Directory>): map<Cache, Directory> {
    if dir.Some? then dirs[c := dir.value] else dirs - {c}
  }

  predicate Empty(dir: Option<Directory>) {
    dir.Some? && dir.value.owner == NoFile && !dir.value.clutter
  }

  // ---- system calls on one directory ----

  ghost predicate MkdirOk(p: Pid, before: Option<Directory>, after: Option<Directory>) {
    before.None? && after == Some(Directory(p, NoFile, false))
  }

  ghost predicate WriteOk(record: Record, before: Option<Directory>, after: Option<Directory>) {
    before.Some? && after == Some(before.value.(owner := Marked(record)))
  }

  /** A failed write may leave the old file, part of the record, or all of it. */
  ghost predicate WriteFailed(record: Record, before: Option<Directory>, after: Option<Directory>) {
    || after == before
    || (before.Some? && after == Some(before.value.(owner := Garbage)))
    || (before.Some? && after == Some(before.value.(owner := Marked(record))))
  }

  ghost predicate UnlinkOk(before: Option<Directory>, after: Option<Directory>) {
    before.Some? && before.value.owner != NoFile && after == Some(before.value.(owner := NoFile))
  }

  ghost predicate RmdirOk(before: Option<Directory>, after: Option<Directory>) {
    Empty(before) && after.None?
  }

  /** One system call of `claim_legacy_directory` and the guard write after it: the directory
      before and after, and the stage that follows (`Acquired`: the lock is pushed; `Abandon`:
      the guard record could not be written). */
  datatype ClaimOutcome = Next(stage: ClaimStage) | Acquired | Abandon

  ghost predicate ClaimMove(p: Pid, record: Record, stage: ClaimStage, before: Option<Directory>,
                            outcome: ClaimOutcome, after: Option<Directory>)
  {
    match stage
    case Create =>
      || (MkdirOk(p, before, after) && outcome == Next(WriteOwner))
      || (before.Some? && after == before && outcome == Next(ReadOwner))
      || (after == before && outcome == Next(Leave(false)))
    case ReadOwner =>
      && after == before
      && (|| (before.Some? && before.value.owner.Marked? && outcome == Next(UnlinkStale(before.value.owner.record)))
          || outcome == Next(Leave(true)))
    case UnlinkStale(stale) =>
      || (UnlinkOk(before, after) && outcome == Next(RemoveStale(stale)))
      || ((before.None? || before.value.owner == NoFile) && after == before && outcome == Next(Leave(true)))
      || (after == before && outcome == Next(Leave(false)))
    case RemoveStale(stale) =>
      || (RmdirOk(before, after) && outcome == Next(Recreate))
      || (before.None? && after == before && outcome == Next(Leave(true)))
      || (before.Some? && after == before && outcome == Next(RestoreStale(stale)))
    case RestoreStale(stale) =>
      (WriteOk(stale, before, after) || WriteFailed(stale, before, after)) && outcome == Next(Leave(false))
    case Recreate =>
      || (MkdirOk(p, before, after) && outcome == Next(WriteOwner))
      || (before.Some? && after == before && outcome == Next(Leave(true)))
      || (after == before && outcome == Next(Leave(false)))
    case WriteOwner =>
      || (WriteOk(record, before, after) && outcome == Next(WriteGuard))
      || (WriteFailed(record, before, after) && outcome == Next(DropFile))
    case DropFile =>
      (UnlinkOk(before, after) || after == before) && outcome == Next(DropDirectory)
    case DropDirectory =>
      (RmdirOk(before, after) || after == before) && outcome == Next(Leave(false))
    case WriteGuard =>
      after == before && (outcome == Acquired || outcome == Abandon)
    case Leave(_) => false
  }

  /** One system call of `release_legacy_directory`. */
  ghost predicate ReleaseMove(record: Record, stage: ReleaseStage, before: Option<Directory>,
                              next: ReleaseStage, after: Option<Directory>)
  {
    match stage
    case CheckOwner =>
      && after == before
      && (|| (before.Some? && before.value.owner == Marked(record) && next == UnlinkOwn)
          || next == UnlockOwn)
    case UnlinkOwn =>
      (UnlinkOk(before, after) && next == RemoveOwn) || (after == before && next == UnlockOwn)
    case RemoveOwn =>
      || (RmdirOk(before, after) && next == UnlockOwn)
      || (before.None? && after == before && next == UnlockOwn)
      || (before.Some? && after == before && next == RestoreOwn)
    case RestoreOwn =>
      (WriteOk(record, before, after) || WriteFailed(record, before, after)) && next == UnlockOwn
    case UnlockOwn => false
  }

  // ---- steps of the whole system ----

  ghost predicate IsInstaller(w: World, p: Pid) {
    p in w.procs && w.procs[p].Installer?
  }

  /** The cache an installer acquires next. */
  ghost predicate Wants(proc: Process, c: Cache) {
    match proc
    case Installer(plan, held, acquiring, pc) =>
      acquiring && pc == Ready && |held| < |plan| && c == plan[|held|]
    case Legacy(cache, pc) => pc == Waiting && c == cache
  }

  /** `try_lock_exclusive` on the guard: taken, or the attempt is over. */
  ghost predicate TryLock(w: World, p: Pid, w': World) {
    && IsInstaller(w, p)
    && var proc := w.procs[p];
    && proc.acquiring && proc.pc == Ready && |proc.held| < |proc.plan|
    && var c := proc.plan[|proc.held|];
    || (c !in w.guards &&
        w' == World(w.procs[p := proc.(pc := Claiming(c, w.nextRecord, Create))],
                    w.guards[c := p], w.dirs, w.nextRecord + 1))
    || w' == w
    || w' == w.(procs := w.procs[p := proc.(acquiring := false)])
  }

  ghost predicate Claim(w: World, p: Pid, w': World) {
    && IsInstaller(w, p) && w.procs[p].pc.Claiming? && !w.procs[p].pc.claim.Leave?
    && var proc := w.procs[p];
    var Claiming(c, record, stage) := proc.pc;
    exists outcome, after ::
      && ClaimMove(p, record, stage, At(w.dirs, c), outcome, after)
      && w' == w.(procs := w.procs[p := AfterClaim(proc, c, record, outcome)], dirs := Put(w.dirs, c, after))
  }

  function AfterClaim(proc: Process, c: Cache, record: Record, outcome: ClaimOutcome): Process
    requires proc.Installer?
  {
    match outcome
    case Next(stage) => proc.(pc := Claiming(c, record, stage))
    case Acquired => proc.(held := proc.held + [Held(c, record)], pc := Ready)
    case Abandon => proc.(acquiring := false, pc := Releasing(c, record, CheckOwner))
  }

  /** The guard is unlocked after contention (and tried again, or the attempts are used up)
      or after an error. */
  ghost predicate LeaveGuard(w: World, p: Pid, w': World) {
    && IsInstaller(w, p) && w.procs[p].pc.Claiming? && w.procs[p].pc.claim.Leave?
    && var proc := w.procs[p];
    exists again: bool ::
      && (again ==> proc.pc.claim.retry)
      && w' == w.(procs := w.procs[p := proc.(pc := Ready, acquiring := again)],
                  guards := w.guards - {proc.pc.cache})
  }

  /** The caller drops its locks, all of them held or not. */
  ghost predicate StartUnwinding(w: World, p: Pid, w': World) {
    && IsInstaller(w, p) && w.procs[p].acquiring && w.procs[p].pc == Ready
    && |w.procs[p].held| == |w.procs[p].plan|
    && w' == w.(procs := w.procs[p := w.procs[p].(acquiring := false)])
  }

  /** `Drop` takes the last lock still held, or is done. */
  ghost predicate Unwind(w: World, p: Pid, w': World) {
    && IsInstaller(w, p) && !w.procs[p].acquiring && w.procs[p].pc == Ready
    && var proc := w.procs[p];
    if proc.held == [] then w' == w.(procs := w.procs[p := proc.(pc := Ended)])
    else
      var last := proc.held[|proc.held| - 1];
      w' == w.(procs := w.procs[p := proc.(held := proc.held[..|proc.held| - 1],
                                           pc := Releasing(last.cache, last.record, CheckOwner))])
  }

  ghost predicate Release(w: World, p: Pid, w': World) {
    && IsInstaller(w, p) && w.procs[p].pc.Releasing? && w.procs[p].pc.release != UnlockOwn
    && var proc := w.procs[p];
    var Releasing(c, record, stage) := proc.pc;
    exists next, after ::
      && ReleaseMove(record, stage, At(w.dirs, c), next, after)
      && w' == w.(procs := w.procs[p := proc.(pc := Releasing(c, record, next))], dirs := Put(w.dirs, c, after))
  }

  ghost predicate UnlockReleased(w: World, p: Pid, w': World) {
    && IsInstaller(w, p) && w.procs[p].pc.Releasing? && w.procs[p].pc.release == UnlockOwn
    && var proc := w.procs[p];
    w' == w.(procs := w.procs[p := proc.(pc := Ready)], guards := w.guards - {proc.pc.cache})
  }

  /** A legacy installer knows only the directory: `mkdir` to enter, `rmdir` to leave. */
  ghost predicate LegacyMove(w: World, p: Pid, w': World) {
    && p in w.procs && w.procs[p].Legacy?
    && var c := w.procs[p].cache;
    match w.procs[p].legacyPc
    case Waiting =>
      || (c !in w.dirs && w' == w.(procs := w.procs[p := Legacy(c, Inside)],
                                  dirs := w.dirs[c := Directory(p, NoFile, false)]))
      || w' == w.(procs := w.procs[p := Legacy(c, Gone)])
    case Inside =>
      w' == w.(procs := w.procs[p := Legacy(c, Gone)],
               dirs := if Empty(At(w.dirs, c)) then w.dirs - {c} else w.dirs)
    case Gone => false
  }

  /** Death at any point: the guards are freed, the directories stay. */
  ghost predicate Crash(w: World, p: Pid, w': World) {
    && p in w.procs
    && w' == w.(procs := w.procs[p := Dead(w.procs[p])],
                guards := map c | c in w.guards && w.guards[c] != p :: w.guards[c])
  }

  function Dead(proc: Process): Process {
    match proc
    case Installer(plan, _, _, _) => Installer(plan, [], false, Ended)
    case Legacy(cache, _) => Legacy(cache, Gone)
  }

  ghost predicate Arrive(w: World, p: Pid, w': World) {
    && p !in w.procs
    && exists proc: Process ::
         && (proc.Installer? ==> Sorted(proc.plan) && proc.held == [] && proc.acquiring && proc.pc == Ready)
         && (proc.Legacy? ==> proc.legacyPc == Waiting)
         && w' == w.(procs := w.procs[p := proc])
  }

  /** Anyone may put other files into a lock directory or take them out. */
  ghost predicate Clutter(w: World, c: Cache, w': World) {
    && c in w.dirs
    && exists clutter: bool :: w' == w.(dirs := w.dirs[c := w.dirs[c].(clutter := clutter)])
  }

  ghost predicate StepOf(w: World, p: Pid, w': World) {
    || TryLock(w, p, w') || Claim(w, p, w') || LeaveGuard(w, p, w') || StartUnwinding(w, p, w')
    || Unwind(w, p, w') || Release(w, p, w') || UnlockReleased(w, p, w')
    || LegacyMove(w, p, w') || Crash(w, p, w')
  }

  ghost predicate Step(w: World, w': World) {
    || (exists p :: StepOf(w, p, w') || Arrive(w, p, w'))
    || (exists c :: Clutter(w, c, w'))
  }

  ghost predicate Initial(w: World) {
    w.procs == map[] && w.guards == map[] && w.dirs == map[]
  }

  ghost predicate Run(trace: seq<World>) {
    |trace| > 0 && forall i | 0 <= i < |trace| - 1 :: Step(trace[i], trace[i + 1])
  }
}
