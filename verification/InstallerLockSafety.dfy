/** What every run of the installer lock keeps: mutual exclusion across protocols and crashes,
    rightful removal of directories, and freedom from circular waiting. */
module InstallerLockSafety {
  import opened Wrappers
  import opened InstallerLock

  // ---- the invariant ----

  ghost predicate InHeld(proc: Process, c: Cache) {
    proc.Installer? && exists i | 0 <= i < |proc.held| :: proc.held[i].cache == c
  }

  /** The installer is working on `c` under its guard. */
  ghost predicate AtPc(proc: Process, c: Cache) {
    && proc.Installer?
    && (proc.pc.Claiming? || proc.pc.Releasing?)
    && proc.pc.cache == c
  }

  ghost predicate Engaged(proc: Process, c: Cache) {
    InHeld(proc, c) || AtPc(proc, c)
  }

  /** The directory of `c` exists and was made by `p`. */
  ghost predicate Made(w: World, p: Pid, c: Cache) {
    c in w.dirs && w.dirs[c].maker == p
  }

  ghost predicate MadeByInstaller(w: World, c: Cache) {
    c in w.dirs && IsInstaller(w, w.dirs[c].maker)
  }

  ghost predicate HoldsDirectory(w: World, p: Pid, c: Cache, record: Record) {
    Made(w, p, c) && w.dirs[c].owner == Marked(record)
  }

  ghost predicate ClaimOk(w: World, p: Pid, c: Cache, record: Record, stage: ClaimStage) {
    match stage
    case UnlinkStale(stale) => MadeByInstaller(w, c) && w.dirs[c].owner == Marked(stale)
    case RemoveStale(_) => MadeByInstaller(w, c) && w.dirs[c].owner == NoFile
    case RestoreStale(_) => MadeByInstaller(w, c) && w.dirs[c].owner == NoFile
    case WriteOwner => Made(w, p, c)
    case DropFile => Made(w, p, c)
    case DropDirectory => Made(w, p, c)
    case WriteGuard => HoldsDirectory(w, p, c, record)
    case _ => true
  }

  ghost predicate ReleaseOk(w: World, p: Pid, c: Cache, record: Record, stage: ReleaseStage) {
    match stage
    case CheckOwner => HoldsDirectory(w, p, c, record)
    case UnlinkOwn => HoldsDirectory(w, p, c, record)
    case RemoveOwn => Made(w, p, c) && w.dirs[c].owner == NoFile
    case RestoreOwn => Made(w, p, c) && w.dirs[c].owner == NoFile
    case UnlockOwn => true
  }

  ghost predicate PlanOk(proc: Process)
    requires proc.Installer?
  {
    && Sorted(proc.plan) && |proc.held| <= |proc.plan|
    && (forall i | 0 <= i < |proc.held| :: proc.held[i].cache == proc.plan[i])
    && (proc.pc.Claiming? || proc.pc.Releasing? ==>
          |proc.held| < |proc.plan| && proc.pc.cache == proc.plan[|proc.held|])
    && (proc.pc.Claiming? ==> proc.acquiring)
    && (proc.pc.Releasing? ==> !proc.acquiring)
    && (proc.pc.Ended? ==> proc.held == [] && !proc.acquiring)
  }

  ghost predicate ProcOk(w: World, p: Pid)
    requires p in w.procs
  {
    var proc := w.procs[p];
    match proc
    case Installer(plan, held, acquiring, pc) =>
      && PlanOk(proc)
      && (forall c | Engaged(proc, c) :: c in w.guards && w.guards[c] == p)
      && (forall i | 0 <= i < |held| :: HoldsDirectory(w, p, held[i].cache, held[i].record))
      && (pc.Claiming? ==> ClaimOk(w, p, pc.cache, pc.record, pc.claim))
      && (pc.Releasing? ==> ReleaseOk(w, p, pc.cache, pc.record, pc.release))
    case Legacy(cache, pc) =>
      pc == Inside ==> Made(w, p, cache) && w.dirs[cache].owner == NoFile
  }

  ghost predicate GuardsOk(w: World) {
    forall c | c in w.guards :: w.guards[c] in w.procs && Engaged(w.procs[w.guards[c]], c)
  }

  ghost predicate DirOk(w: World, c: Cache)
    requires c in w.dirs
  {
    w.dirs[c].maker in w.procs && (w.dirs[c].owner != NoFile ==> IsInstaller(w, w.dirs[c].maker))
  }

  ghost predicate Inv(w: World) {
    && (forall p | p in w.procs :: ProcOk(w, p))
    && GuardsOk(w)
    && (forall c | c in w.dirs :: DirOk(w, c))
  }

  // ---- frames ----

  ghost predicate NeedsDirectory(pc: Pc) {
    match pc
    case Claiming(_, _, stage) => !stage.Create? && !stage.ReadOwner? && !stage.Recreate? && !stage.Leave?
    case Releasing(_, _, stage) => stage != UnlockOwn
    case _ => false
  }

  /** The directories whose state a process relies on. */
  ghost predicate DependsOn(proc: Process, c: Cache) {
    match proc
    case Installer(_, _, _, pc) => InHeld(proc, c) || (AtPc(proc, c) && NeedsDirectory(pc))
    case Legacy(cache, pc) => pc == Inside && cache == c
  }

  /** Nothing that `q` relies on changed between the two worlds. */
  ghost predicate Undisturbed(w: World, w': World, q: Pid)
    requires q in w.procs
  {
    && q in w'.procs && w'.procs[q] == w.procs[q]
    && (forall c | c in w.guards && w.guards[c] == q :: c in w'.guards && w'.guards[c] == q)
    && (forall c | c in w.dirs && DependsOn(w.procs[q], c) ::
          c in w'.dirs && w'.dirs[c].maker == w.dirs[c].maker && w'.dirs[c].owner == w.dirs[c].owner)
  }

  ghost predicate KindsKept(w: World, w': World) {
    forall p | p in w.procs :: p in w'.procs && w'.procs[p].Installer? == w.procs[p].Installer?
  }

  lemma StaysOk(w: World, w': World, q: Pid)
    requires q in w.procs && ProcOk(w, q) && Undisturbed(w, w', q) && KindsKept(w, w')
    requires forall c | c in w.dirs :: DirOk(w, c)
    ensures ProcOk(w', q)
  {
    var proc := w.procs[q];
    if proc.Installer? {
      forall i | 0 <= i < |proc.held| ensures HoldsDirectory(w', q, proc.held[i].cache, proc.held[i].record) {
        assert InHeld(proc, proc.held[i].cache);
      }
      if proc.pc.Claiming? || proc.pc.Releasing? {
        assert AtPc(proc, proc.pc.cache);
      }
    }
  }

  /** Two processes never rely on the same directory, and no legacy installer is inside a
      directory that an installer made. */
  lemma NoSharedDependence(w: World, p: Pid, q: Pid, c: Cache)
    requires Inv(w) && p in w.procs && q in w.procs && p != q
    requires c in w.guards && w.guards[c] == p
    requires DependsOn(w.procs[q], c)
    ensures w.procs[q].Legacy? && Made(w, q, c) && w.dirs[c].owner == NoFile
  {
    assert ProcOk(w, q);
  }

  /** An installer changed the directory it guards and nothing else but itself. */
  lemma OwnDirectoryStep(w: World, p: Pid, w': World, c: Cache)
    requires Inv(w) && IsInstaller(w, p) && c in w.guards && w.guards[c] == p
    requires p in w'.procs && w'.procs == w.procs[p := w'.procs[p]] && w'.procs[p].Installer?
    requires forall d | d != c :: (d in w.dirs <==> d in w'.dirs) && (d in w.dirs ==> w'.dirs[d] == w.dirs[d])
    requires At(w'.dirs, c) == At(w.dirs, c) || c !in w.dirs || MadeByInstaller(w, c)
    requires w'.guards == w.guards || w'.guards == w.guards - {c}
    requires c in w'.guards <==> Engaged(w'.procs[p], c)
    requires forall d | d != c :: Engaged(w'.procs[p], d) <==> Engaged(w.procs[p], d)
    requires ProcOk(w', p) && (c in w'.dirs ==> DirOk(w', c))
    ensures Inv(w')
  {
    forall q | q in w'.procs ensures ProcOk(w', q) {
      if q != p { OthersStayOk(w, p, w', c, q); }
    }
    forall d | d in w'.dirs ensures DirOk(w', d) {
      if d != c { assert DirOk(w, d); }
    }
  }

  lemma OthersStayOk(w: World, p: Pid, w': World, c: Cache, q: Pid)
    requires Inv(w) && IsInstaller(w, p) && c in w.guards && w.guards[c] == p
    requires p in w'.procs && w'.procs == w.procs[p := w'.procs[p]] && w'.procs[p].Installer?
    requires q in w.procs && q != p
    requires forall d | d != c :: (d in w.dirs <==> d in w'.dirs) && (d in w.dirs ==> w'.dirs[d] == w.dirs[d])
    requires At(w'.dirs, c) == At(w.dirs, c) || c !in w.dirs || MadeByInstaller(w, c)
    requires w'.guards == w.guards || w'.guards == w.guards - {c}
    ensures ProcOk(w', q)
  {
    forall d | d in w.dirs && DependsOn(w.procs[q], d)
      ensures d in w'.dirs && w'.dirs[d].maker == w.dirs[d].maker && w'.dirs[d].owner == w.dirs[d].owner
    {
      if d == c { NoSharedDependence(w, p, q, c); }
    }
    StaysOk(w, w', q);
  }

  // ---- every step keeps the invariant ----

  lemma TryLockKeeps(w: World, p: Pid, w': World)
    requires Inv(w) && TryLock(w, p, w')
    ensures Inv(w')
  {
    assert ProcOk(w, p);
    if w'.guards != w.guards {
      GuardTakenKeeps(w, p, w', w.procs[p].plan[|w.procs[p].held|]);
    } else if w' != w {
      OwnStateStep(w, p, w');
    }
  }

  lemma GuardTakenKeeps(w: World, p: Pid, w': World, c: Cache)
    requires Inv(w) && IsInstaller(w, p) && w.procs[p].pc == Ready && w.procs[p].acquiring
    requires |w.procs[p].held| < |w.procs[p].plan| && c == w.procs[p].plan[|w.procs[p].held|] && c !in w.guards
    requires w' == World(w.procs[p := w.procs[p].(pc := Claiming(c, w.nextRecord, Create))], w.guards[c := p],
                         w.dirs, w.nextRecord + 1)
    ensures Inv(w')
  {
    var proc' := w'.procs[p];
    assert ProcOk(w, p);
    forall q | q in w'.procs ensures ProcOk(w', q) {
      if q != p {
        StaysOk(w, w', q);
      } else {
        TakerOk(w, p, w', c);
      }
    }
    forall d | d in w'.guards ensures w'.guards[d] in w'.procs && Engaged(w'.procs[w'.guards[d]], d) {
      if d in w.guards && w.guards[d] == p { assert InHeld(proc', d); }
    }
    forall d | d in w'.dirs ensures DirOk(w', d) { assert DirOk(w, d); }
  }

  lemma TakerOk(w: World, p: Pid, w': World, c: Cache)
    requires IsInstaller(w, p) && ProcOk(w, p) && w.procs[p].pc == Ready && w.procs[p].acquiring
    requires |w.procs[p].held| < |w.procs[p].plan| && c == w.procs[p].plan[|w.procs[p].held|]
    requires w' == World(w.procs[p := w.procs[p].(pc := Claiming(c, w.nextRecord, Create))], w.guards[c := p],
                         w.dirs, w.nextRecord + 1)
    ensures ProcOk(w', p)
  {
    var proc, proc' := w.procs[p], w'.procs[p];
    forall d | Engaged(proc', d) ensures d in w'.guards && w'.guards[d] == p {
      if d != c { assert Engaged(proc, d); }
    }
  }

  /** A claim changes the directory only where nobody else has a stake in it. */
  lemma ClaimTouchesOwn(w: World, p: Pid, c: Cache, record: Record, stage: ClaimStage, outcome: ClaimOutcome,
                        after: Option<Directory>)
    requires IsInstaller(w, p) && ClaimOk(w, p, c, record, stage)
    requires ClaimMove(p, record, stage, At(w.dirs, c), outcome, after)
    ensures after == At(w.dirs, c) || c !in w.dirs || MadeByInstaller(w, c)
  {
  }

  lemma ClaimKeeps(w: World, p: Pid, w': World)
    requires Inv(w) && Claim(w, p, w')
    ensures Inv(w')
  {
    var proc := w.procs[p];
    assert ProcOk(w, p);
    var Claiming(c, record, stage) := proc.pc;
    assert AtPc(proc, c);
    var outcome, after :| ClaimMove(p, record, stage, At(w.dirs, c), outcome, after) &&
                          w' == w.(procs := w.procs[p := AfterClaim(proc, c, record, outcome)],
                                   dirs := Put(w.dirs, c, after));
    ClaimTouchesOwn(w, p, c, record, stage, outcome, after);
    EngagedAfterClaim(proc, c, record, outcome);
    ClaimerOk(w, p, w', c, record, stage, outcome, after);
    OwnDirectoryStep(w, p, w', c);
  }

  lemma EngagedAfterClaim(proc: Process, c: Cache, record: Record, outcome: ClaimOutcome)
    requires proc.Installer? && proc.pc.Claiming? && proc.pc.cache == c
    ensures forall d :: Engaged(AfterClaim(proc, c, record, outcome), d) <==> Engaged(proc, d)
  {
    var proc' := AfterClaim(proc, c, record, outcome);
    forall d ensures Engaged(proc', d) <==> Engaged(proc, d) {
      if outcome.Acquired? {
        assert proc'.held[|proc.held|] == Held(c, record);
        assert forall i | 0 <= i < |proc.held| :: proc'.held[i] == proc.held[i];
      }
    }
  }

  /** The stage that follows finds the directory as it needs it. */
  lemma ClaimStageOk(w: World, p: Pid, w': World, c: Cache, record: Record, stage: ClaimStage, outcome: ClaimOutcome,
                     after: Option<Directory>)
    requires IsInstaller(w, p) && ClaimOk(w, p, c, record, stage) && (c in w.dirs ==> DirOk(w, c))
    requires ClaimMove(p, record, stage, At(w.dirs, c), outcome, after)
    requires KindsKept(w, w') && w'.dirs == Put(w.dirs, c, after)
    ensures outcome.Next? ==> ClaimOk(w', p, c, record, outcome.stage)
    ensures !outcome.Next? ==> HoldsDirectory(w', p, c, record)
    ensures c in w'.dirs ==> DirOk(w', c)
  {
  }

  lemma ClaimerOk(w: World, p: Pid, w': World, c: Cache, record: Record, stage: ClaimStage, outcome: ClaimOutcome,
                  after: Option<Directory>)
    requires Inv(w) && IsInstaller(w, p) && w.procs[p].pc == Claiming(c, record, stage)
    requires ClaimMove(p, record, stage, At(w.dirs, c), outcome, after)
    requires w' == w.(procs := w.procs[p := AfterClaim(w.procs[p], c, record, outcome)], dirs := Put(w.dirs, c, after))
    ensures ProcOk(w', p) && (c in w'.dirs ==> DirOk(w', c))
  {
    assert ProcOk(w, p);
    ClaimStageOk(w, p, w', c, record, stage, outcome, after);
    ClaimerPlanOk(w.procs[p], c, record, outcome);
    EngagedAfterClaim(w.procs[p], c, record, outcome);
    HeldDirectoriesKept(w, p, w', c);
  }

  lemma ClaimerPlanOk(proc: Process, c: Cache, record: Record, outcome: ClaimOutcome)
    requires proc.Installer? && proc.pc.Claiming? && proc.pc.cache == c && PlanOk(proc)
    ensures PlanOk(AfterClaim(proc, c, record, outcome))
  {
  }

  lemma HeldDirectoriesKept(w: World, p: Pid, w': World, c: Cache)
    requires IsInstaller(w, p) && ProcOk(w, p) && AtPc(w.procs[p], c)
    requires forall d | d != c && d in w.dirs :: d in w'.dirs && w'.dirs[d] == w.dirs[d]
    ensures forall h | h in w.procs[p].held :: HoldsDirectory(w', p, h.cache, h.record)
  {
    var proc := w.procs[p];
    forall h | h in proc.held ensures HoldsDirectory(w', p, h.cache, h.record) {
      var i :| 0 <= i < |proc.held| && proc.held[i] == h;
      assert proc.plan[i] < proc.plan[|proc.held|];
      assert HoldsDirectory(w, p, h.cache, h.record);
    }
  }

  lemma LeaveGuardKeeps(w: World, p: Pid, w': World)
    requires Inv(w) && LeaveGuard(w, p, w')
    ensures Inv(w')
  {
    var proc, proc' := w.procs[p], w'.procs[p];
    assert ProcOk(w, p);
    var c := proc.pc.cache;
    assert AtPc(proc, c);
    assert forall i | 0 <= i < |proc.held| :: proc.held[i].cache != c;
    forall d ensures Engaged(proc', d) <==> d != c && Engaged(proc, d) {
    }
    assert c in w.dirs ==> DirOk(w, c);
    OwnDirectoryStep(w, p, w', c);
  }

  /** A process changed only its own state, keeping what it is engaged with. */
  lemma OwnStateStep(w: World, p: Pid, w': World)
    requires Inv(w) && p in w.procs && p in w'.procs
    requires w' == w.(procs := w.procs[p := w'.procs[p]])
    requires w'.procs[p].Installer? == w.procs[p].Installer?
    requires forall c :: Engaged(w'.procs[p], c) <==> Engaged(w.procs[p], c)
    requires ProcOk(w', p)
    ensures Inv(w')
  {
    forall q | q in w'.procs ensures ProcOk(w', q) {
      if q != p { StaysOk(w, w', q); }
    }
    forall c | c in w'.dirs ensures DirOk(w', c) { assert DirOk(w, c); }
  }

  lemma UnwindingKeeps(w: World, p: Pid, w': World)
    requires Inv(w) && (StartUnwinding(w, p, w') || Unwind(w, p, w'))
    ensures Inv(w')
  {
    var proc, proc' := w.procs[p], w'.procs[p];
    assert ProcOk(w, p);
    forall c ensures Engaged(proc', c) <==> Engaged(proc, c) {
      if proc.held != [] && proc'.held != proc.held {
        var n := |proc.held| - 1;
        assert forall i | 0 <= i < n :: proc'.held[i] == proc.held[i];
        assert proc.held[n].cache == proc.plan[n];
      }
    }
    forall i | 0 <= i < |proc'.held| ensures HoldsDirectory(w', p, proc'.held[i].cache, proc'.held[i].record) {
      assert proc'.held[i] == proc.held[i];
    }
    OwnStateStep(w, p, w');
  }

  lemma ReleaseStageOk(w: World, p: Pid, w': World, c: Cache, record: Record, stage: ReleaseStage, next: ReleaseStage,
                       after: Option<Directory>)
    requires IsInstaller(w, p) && ReleaseOk(w, p, c, record, stage) && (c in w.dirs ==> DirOk(w, c))
    requires ReleaseMove(record, stage, At(w.dirs, c), next, after)
    requires KindsKept(w, w') && w'.dirs == Put(w.dirs, c, after)
    ensures ReleaseOk(w', p, c, record, next)
    ensures c in w'.dirs ==> DirOk(w', c)
    ensures after == At(w.dirs, c) || c !in w.dirs || MadeByInstaller(w, c)
  {
  }

  lemma ReleaseKeeps(w: World, p: Pid, w': World)
    requires Inv(w) && Release(w, p, w')
    ensures Inv(w')
  {
    var proc, proc' := w.procs[p], w'.procs[p];
    assert ProcOk(w, p);
    var Releasing(c, record, stage) := proc.pc;
    assert AtPc(proc, c);
    var next, after :| ReleaseMove(record, stage, At(w.dirs, c), next, after) &&
                       w' == w.(procs := w.procs[p := proc.(pc := Releasing(c, record, next))],
                                dirs := Put(w.dirs, c, after));
    assert c in w.dirs ==> DirOk(w, c);
    ReleaseStageOk(w, p, w', c, record, stage, next, after);
    HeldDirectoriesKept(w, p, w', c);
    forall d ensures Engaged(proc', d) <==> Engaged(proc, d) {
    }
    OwnDirectoryStep(w, p, w', c);
  }

  lemma UnlockKeeps(w: World, p: Pid, w': World)
    requires Inv(w) && UnlockReleased(w, p, w')
    ensures Inv(w')
  {
    var proc, proc' := w.procs[p], w'.procs[p];
    assert ProcOk(w, p);
    var c := proc.pc.cache;
    assert AtPc(proc, c);
    assert forall i | 0 <= i < |proc.held| :: proc.held[i].cache != c;
    forall d ensures Engaged(proc', d) <==> d != c && Engaged(proc, d) {
    }
    assert c in w.dirs ==> DirOk(w, c);
    OwnDirectoryStep(w, p, w', c);
  }

  /** Whoever relies on the directory a legacy installer is inside of, is that installer. */
  lemma AloneInside(w: World, p: Pid, q: Pid, c: Cache)
    requires Inv(w) && p in w.procs && q in w.procs
    requires w.procs[p] == Legacy(c, Inside) && DependsOn(w.procs[q], c)
    ensures q == p
  {
    assert ProcOk(w, p) && ProcOk(w, q);
  }

  lemma LegacyKeeps(w: World, p: Pid, w': World)
    requires Inv(w) && LegacyMove(w, p, w')
    ensures Inv(w')
  {
    assert ProcOk(w, p);
    forall q | q in w'.procs ensures ProcOk(w', q) {
      if q != p { BesideLegacy(w, p, w', q); }
    }
    forall d | d in w'.dirs ensures DirOk(w', d) {
      if d in w.dirs { assert DirOk(w, d); }
    }
  }

  lemma BesideLegacy(w: World, p: Pid, w': World, q: Pid)
    requires Inv(w) && LegacyMove(w, p, w') && q in w.procs && q != p
    ensures ProcOk(w', q)
  {
    var c := w.procs[p].cache;
    forall d | d in w.dirs && DependsOn(w.procs[q], d)
      ensures d in w'.dirs && w'.dirs[d] == w.dirs[d]
    {
      if d == c && w.procs[p].legacyPc == Inside { AloneInside(w, p, q, c); }
    }
    StaysOk(w, w', q);
  }

  lemma CrashKeeps(w: World, p: Pid, w': World)
    requires Inv(w) && Crash(w, p, w')
    ensures Inv(w')
  {
    forall q | q in w'.procs ensures ProcOk(w', q) {
      if q != p { StaysOk(w, w', q); }
    }
    forall c | c in w'.dirs ensures DirOk(w', c) { assert DirOk(w, c); }
  }

  lemma ArriveKeeps(w: World, p: Pid, w': World)
    requires Inv(w) && Arrive(w, p, w')
    ensures Inv(w')
  {
    forall q | q in w'.procs ensures ProcOk(w', q) {
      if q != p { StaysOk(w, w', q); }
    }
    forall c | c in w'.dirs ensures DirOk(w', c) { assert DirOk(w, c); }
  }

  lemma ClutterKeeps(w: World, c: Cache, w': World)
    requires Inv(w) && Clutter(w, c, w')
    ensures Inv(w')
  {
    forall q | q in w'.procs ensures ProcOk(w', q) { StaysOk(w, w', q); }
    forall d | d in w'.dirs ensures DirOk(w', d) { assert DirOk(w, d); }
  }

  lemma StepOfKeeps(w: World, p: Pid, w': World)
    requires Inv(w) && StepOf(w, p, w')
    ensures Inv(w')
  {
    if TryLock(w, p, w') { TryLockKeeps(w, p, w'); }
    else if Claim(w, p, w') { ClaimKeeps(w, p, w'); }
    else if LeaveGuard(w, p, w') { LeaveGuardKeeps(w, p, w'); }
    else if StartUnwinding(w, p, w') || Unwind(w, p, w') { UnwindingKeeps(w, p, w'); }
    else if Release(w, p, w') { ReleaseKeeps(w, p, w'); }
    else if UnlockReleased(w, p, w') { UnlockKeeps(w, p, w'); }
    else if LegacyMove(w, p, w') { LegacyKeeps(w, p, w'); }
    else { CrashKeeps(w, p, w'); }
  }

  lemma StepKeeps(w: World, w': World)
    requires Inv(w) && Step(w, w')
    ensures Inv(w')
  {
    if p :| StepOf(w, p, w') { StepOfKeeps(w, p, w'); }
    else if p :| Arrive(w, p, w') { ArriveKeeps(w, p, w'); }
    else {
      var c :| Clutter(w, c, w');
      ClutterKeeps(w, c, w');
    }
  }

  lemma {:induction false} RunKeeps(trace: seq<World>, k: nat)
    requires Run(trace) && Inv(trace[0]) && k < |trace|
    ensures Inv(trace[k])
  {
    if k > 0 {
      RunKeeps(trace, k - 1);
      StepKeeps(trace[k - 1], trace[k]);
    }
  }

  // ---- mutual exclusion ----

  /** `p` may use the cache: an installer that has the lock, or a legacy installer inside. */
  ghost predicate InCritical(w: World, p: Pid, c: Cache) {
    p in w.procs && (InHeld(w.procs[p], c) || w.procs[p] == Legacy(c, Inside))
  }

  /** In every reachable world, under any mix of protocols and crashes, at most one process
      may use a cache; an installer that may use it has its guard and a directory that holds
      exactly its own record; a legacy installer's directory is its own and unmarked. */
  lemma MutualExclusion(trace: seq<World>, p: Pid, q: Pid, c: Cache)
    requires Run(trace) && Initial(trace[0])
    ensures var w := trace[|trace| - 1];
            && (InCritical(w, p, c) && InCritical(w, q, c) ==> p == q)
            && (InCritical(w, p, c) && IsInstaller(w, p) ==>
                  && c in w.guards && w.guards[c] == p
                  && exists h | h in w.procs[p].held :: h.cache == c && HoldsDirectory(w, p, c, h.record))
            && (InCritical(w, p, c) && !IsInstaller(w, p) ==> Made(w, p, c) && w.dirs[c].owner == NoFile)
  {
    RunKeeps(trace, |trace| - 1);
    var w := trace[|trace| - 1];
    if InCritical(w, p, c) {
      CriticalFacts(w, p, c);
    }
    if InCritical(w, q, c) {
      CriticalFacts(w, q, c);
    }
  }

  lemma CriticalFacts(w: World, p: Pid, c: Cache)
    requires Inv(w) && InCritical(w, p, c)
    ensures Made(w, p, c)
    ensures IsInstaller(w, p) ==> c in w.guards && w.guards[c] == p
    ensures IsInstaller(w, p) ==> exists h | h in w.procs[p].held :: h.cache == c && HoldsDirectory(w, p, c, h.record)
    ensures !IsInstaller(w, p) ==> w.dirs[c].owner == NoFile
  {
    assert ProcOk(w, p);
    if IsInstaller(w, p) {
      var proc := w.procs[p];
      var i :| 0 <= i < |proc.held| && proc.held[i].cache == c;
      assert proc.held[i] in proc.held && HoldsDirectory(w, p, c, proc.held[i].record);
      assert Engaged(proc, c);
    }
  }

  // ---- who removes a directory ----

  /** A step that removes the directory of `c` (not counting clutter) removes one that nobody
      may be using: the stepper's own, left by a release, a failed claim or a legacy exit; or a
      directory an installer made and then lost, with the guard in the stepper's hands. A
      directory made by a legacy installer is removed by that installer only. */
  lemma RemovalIsRightful(w: World, p: Pid, w': World, c: Cache)
    requires Inv(w) && StepOf(w, p, w') && c in w.dirs && c !in w'.dirs
    ensures w.dirs[c].owner == NoFile && !w.dirs[c].clutter
    ensures w.dirs[c].maker == p || (IsInstaller(w, p) && MadeByInstaller(w, c) && c in w.guards && w.guards[c] == p)
    ensures IsInstaller(w, p) && w.procs[p].pc.Releasing? ==> w.dirs[c].maker == p
    ensures forall q :: InCritical(w, q, c) ==> q == p
    ensures IsInstaller(w, p) ==> forall q :: !InCritical(w, q, c)
  {
    assert ProcOk(w, p);
    var proc := w.procs[p];
    if proc.Installer? {
      assert AtPc(proc, c);
      assert c in w.guards && w.guards[c] == p;
      assert MadeByInstaller(w, c);
      NotHeldAtPc(w, p, c);
    } else {
      assert w.procs[p] == Legacy(c, Inside);
    }
    forall q | InCritical(w, q, c) ensures q == p && !IsInstaller(w, p) {
      CriticalFacts(w, q, c);
    }
  }

  /** A step that unlinks a record unlinks the releaser's own, from the directory it made; or the
      stale one that a claim under the guard has read; or the one a failed claim just wrote. */
  lemma UnlinkIsRightful(w: World, p: Pid, w': World, c: Cache)
    requires Inv(w) && StepOf(w, p, w') && c in w.dirs && c in w'.dirs
    requires w.dirs[c].owner.Marked? && w'.dirs[c].owner == NoFile
    ensures IsInstaller(w, p) && c in w.guards && w.guards[c] == p && AtPc(w.procs[p], c)
    ensures var pc := w.procs[p].pc;
            && (pc.Releasing? ==> HoldsDirectory(w, p, c, pc.record))
            && (pc.Claiming? ==>
                  pc.claim == UnlinkStale(w.dirs[c].owner.record) || (pc.claim == DropFile && Made(w, p, c)))
    ensures forall q :: !InCritical(w, q, c)
  {
    assert ProcOk(w, p);
    assert AtPc(w.procs[p], c);
    NotHeldAtPc(w, p, c);
    forall q ensures !InCritical(w, q, c) {
      if InCritical(w, q, c) { CriticalFacts(w, q, c); }
    }
  }

  lemma NotHeldAtPc(w: World, p: Pid, c: Cache)
    requires Inv(w) && IsInstaller(w, p) && AtPc(w.procs[p], c)
    ensures !InHeld(w.procs[p], c)
  {
    var proc := w.procs[p];
    assert ProcOk(w, p);
    forall i | 0 <= i < |proc.held| ensures proc.held[i].cache != c {
      assert proc.plan[i] < proc.plan[|proc.held|];
    }
  }

  // ---- no circular waiting ----

  ghost predicate Blocks(w: World, q: Pid, c: Cache) {
    q in w.procs && ((c in w.guards && w.guards[c] == q) || w.procs[q] == Legacy(c, Inside))
  }

  /** `p` is about to try for a cache that `q` has. */
  ghost predicate WaitsFor(w: World, p: Pid, q: Pid) {
    p in w.procs && exists c | Wants(w.procs[p], c) :: Blocks(w, q, c)
  }

  ghost function Wanted(proc: Process): Cache
    requires exists c :: Wants(proc, c)
  {
    var c :| Wants(proc, c); c
  }

  ghost predicate IsWaiting(w: World, p: Pid) {
    p in w.procs && exists c :: Wants(w.procs[p], c)
  }

  /** Whoever has the wanted cache and itself waits, waits for a later one. */
  lemma WaitsForLater(w: World, p: Pid, q: Pid)
    requires Inv(w) && WaitsFor(w, p, q) && IsWaiting(w, q)
    ensures IsWaiting(w, p) && Wanted(w.procs[p]) < Wanted(w.procs[q])
  {
    var c :| Wants(w.procs[p], c) && Blocks(w, q, c);
    assert Wanted(w.procs[p]) == c;
    assert ProcOk(w, q);
    var proc := w.procs[q];
    var d := Wanted(proc);
    assert InHeld(proc, c);
    var i :| 0 <= i < |proc.held| && proc.held[i].cache == c;
    assert proc.plan[i] < proc.plan[|proc.held|];
  }

  ghost predicate WaitChain(w: World, chain: seq<Pid>) {
    |chain| >= 2 && forall i | 0 <= i < |chain| - 1 :: WaitsFor(w, chain[i], chain[i + 1])
  }

  lemma {:induction false} ChainRises(w: World, chain: seq<Pid>, k: nat)
    requires Inv(w) && WaitChain(w, chain) && 0 < k < |chain| && IsWaiting(w, chain[k])
    ensures IsWaiting(w, chain[0]) && Wanted(w.procs[chain[0]]) < Wanted(w.procs[chain[k]])
  {
    WaitsForLater(w, chain[k - 1], chain[k]);
    if k > 1 {
      ChainRises(w, chain, k - 1);
    }
  }

  /** In every reachable world no process waits, directly or through others, for itself. */
  lemma NoCircularWait(trace: seq<World>, chain: seq<Pid>)
    requires Run(trace) && Initial(trace[0])
    requires WaitChain(trace[|trace| - 1], chain)
    ensures chain[0] != chain[|chain| - 1]
  {
    var w := trace[|trace| - 1];
    RunKeeps(trace, |trace| - 1);
    assert WaitsFor(w, chain[0], chain[1]);
    if IsWaiting(w, chain[|chain| - 1]) {
      ChainRises(w, chain, |chain| - 1);
    }
  }

  /** An installer that has ended, or dropped all its locks, has no guard left. */
  lemma EndedHoldsNothing(w: World, p: Pid)
    requires Inv(w) && IsInstaller(w, p) && w.procs[p].held == []
    requires w.procs[p].pc == Ready || w.procs[p].pc == Ended
    ensures forall c | c in w.guards :: w.guards[c] != p
    ensures forall c :: !InCritical(w, p, c)
  {
    forall c | c in w.guards ensures w.guards[c] != p {
      assert Engaged(w.procs[w.guards[c]], c);
    }
  }
}
