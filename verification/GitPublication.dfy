/** Publishing a staged Git directory as `.git`, and removing staging directories
    (crates/jig-bootstrap/src/git.rs). */
module GitPublication {
  import opened Wrappers
  import opened FileTree
  import opened GitTransfer
  import opened GitTransferFacts

  const ATTEMPTS: nat := 128

  /** The names that are tried for a quarantine, by attempt. */
  type Siblings = nat -> Path

  /** The renames to the first `n` names, all refused. */
  ghost function Refusals(source: Path, siblings: Siblings, n: nat, position: nat): (r: seq<Denial>)
    ensures |r| == n
  {
    if n == 0 then []
    else Refusals(source, siblings, n - 1, position) + [Denial(Renamed(source, siblings(n - 1)), position)]
  }

  /** `rename_to_unique_sibling`: tries one name after the other and moves on only from a name that
      is taken. It gives up after 128 names, or when a rename is refused although the name seems to
      be free. */
  method RenameToUniqueSibling(fs: FileSystem, source: Path, siblings: Siblings)
    returns (r: Option<Path>, ghost tried: nat)
    requires fs.Valid()
    modifies fs
    ensures fs.Valid() && old(fs.steps) <= fs.steps
            && fs.events == old(fs.events) + if r.Some? then [Renamed(source, r.value)] else []
    ensures fs.denied == old(fs.denied) + Refusals(source, siblings, tried, |old(fs.events)|)
    ensures r.Some? ==> tried < 128 && r.value == siblings(tried)
    ensures r.None? ==> 0 < tried <= 128
    ensures r.None? && tried < 128 && fs.quiet && fs.reliable ==> Resolve(fs.world, siblings(tried - 1)).None?
  {
    var i := 0;
    tried := 0;
    while i < ATTEMPTS
      invariant 0 <= i <= ATTEMPTS && fs.Valid() && fs.events == old(fs.events) && old(fs.steps) <= fs.steps
      invariant tried == i && fs.denied == old(fs.denied) + Refusals(source, siblings, tried, |old(fs.events)|)
    {
      var ok, taken := TryName(fs, source, siblings(i));
      if ok { return Some(siblings(i)), i; }
      tried := tried + 1;
      if !taken { return None, tried; }
      i := i + 1;
    }
    return None, tried;
  }

  /** One name: the rename, or else a look at what is there. */
  method TryName(fs: FileSystem, source: Path, name: Path) returns (ok: bool, taken: bool)
    requires fs.Valid()
    modifies fs
    ensures fs.Valid() && old(fs.steps) <= fs.steps && fs.Logged() == old(fs.Logged()).Then(ok, Renamed(source, name))
    ensures !ok && !taken && fs.quiet && fs.reliable ==> Resolve(fs.world, name).None?
  {
    taken := false;
    ok := fs.RenameNoReplace(source, name);
    if ok { return; }
    var found := fs.Inspect(name);
    taken := found == Some(true);
  }

  /** A complete cleanup: out of the way first, then checked twice, then removed. */
  function Cleanup(path: Path, commit: Id, quarantine: Path): seq<Event> {
    [Verified(path, commit), Renamed(path, quarantine), Verified(quarantine, commit), Verified(quarantine, commit),
     RemovedTree(quarantine)]
  }

  ghost predicate Quarantine(siblings: Siblings, q: Path) {
    exists attempt: nat :: attempt < ATTEMPTS && siblings(attempt) == q
  }

  /** `cleanup_staging_directory`: with the flag set it does nothing at all; otherwise a prefix of
      the cleanup script. */
  method CleanupStagingDirectory(fs: FileSystem, staged: StagingDirectory, siblings: Siblings)
    returns (ok: bool, ghost q: Path, ghost k: nat)
    requires fs.Valid()
    modifies fs
    ensures fs.Valid() && old(fs.steps) <= fs.steps && Quarantine(siblings, q)
    ensures staged.preserve ==> !ok && k == 0
    ensures k <= 5 && fs.events == old(fs.events) + Cleanup(staged.path, staged.commit, q)[..k] && (ok ==> k == 5)
    ensures old(fs.denied) <= fs.denied && (!ok && !staged.preserve ==> old(fs.denied) < fs.denied)
  {
    q, k := siblings(0), 0;
    if staged.preserve { return false, q, 0; }
    ok := fs.Verify(staged.path, staged.commit);
    if !ok { return; }
    var quarantine;
    ghost var tried;
    quarantine, tried := RenameToUniqueSibling(fs, staged.path, siblings);
    if quarantine.None? { return false, q, 1; }
    q := quarantine.value;
    ok, k := RemoveQuarantined(fs, quarantine.value, staged.commit);
    k := 2 + k;
    assert Cleanup(staged.path, staged.commit, q)[2..] == LastSteps(q, staged.commit);
  }

  /** The last part of a cleanup. */
  function LastSteps(quarantine: Path, commit: Id): seq<Event> {
    [Verified(quarantine, commit), Verified(quarantine, commit), RemovedTree(quarantine)]
  }

  method RemoveQuarantined(fs: FileSystem, quarantine: Path, commit: Id) returns (ok: bool, ghost k: nat)
    requires fs.Valid()
    modifies fs
    ensures fs.Valid() && old(fs.steps) <= fs.steps && k <= 3 && (ok ==> k == 3)
    ensures fs.events == old(fs.events) + LastSteps(quarantine, commit)[..k]
    ensures if ok then fs.denied == old(fs.denied) else old(fs.denied) < fs.denied
  {
    k := 0;
    ok := fs.Verify(quarantine, commit);
    if !ok { return; }
    k := 1;
    ok := fs.Verify(quarantine, commit);
    if !ok { return; }
    ok := fs.RemoveTree(quarantine);
    k := 3;
  }

  /** Alone, what a cleanup removes is the staging directory itself, with what it holds. */
  lemma AloneRemovesOwn(path: Path, commit: Id, quarantine: Path, w: World, w': World) returns (m: World)
    requires Run(w, Cleanup(path, commit, quarantine), w')
    ensures Sound(Step(m, RemovedTree(quarantine), w')) && DirectoryAt(m, quarantine, commit)
    ensures DirectoryAt(w, path, commit) && Sound(Step(w, Renamed(path, quarantine), m)) && Objects(m) == Objects(w)
  {
    var c := Cleanup(path, commit, quarantine);
    assert c == [c[0]] + ([c[1]] + ([c[2]] + ([c[3]] + [c[4]])));
    var w1 := RunSplits(w, [c[0]], [c[1]] + ([c[2]] + ([c[3]] + [c[4]])), w');
    var w2 := RunSplits(w1, [c[1]], [c[2]] + ([c[3]] + [c[4]]), w');
    var w3 := RunSplits(w2, [c[2]], [c[3]] + [c[4]], w');
    m := RunSplits(w3, [c[3]], [c[4]], w');
    RunOne(w, c[0], w1);
    RunOne(w1, c[1], w2);
    RunOne(w2, c[2], w3);
    RunOne(w3, c[3], m);
    RunOne(m, c[4], w');
    OwnCallsLoseNothing(Step(w1, c[1], w2));
  }

  // ---- publication ----

  datatype Publication = Published | Contended | Failed

  function Prelude(path: Path, commit: Id): seq<Event> {
    [Verified(path, commit), Permitted(path), Verified(path, commit), Verified(path, commit)]
  }

  /** What is done after the rename committed: the new `.git` is verified, or moved aside. */
  ghost predicate Aftermath(destination: Path, commit: Id, recovery: Siblings, events: seq<Event>, r: Publication) {
    || (r == Published && events == [Verified(destination, commit)])
    || (r == Failed && events == [])
    || (r == Failed && exists q :: Quarantine(recovery, q) && events == [Renamed(destination, q)])
  }

  /** `validate_published_staging_directory`: a mismatch is moved aside, never removed. */
  method ValidatePublished(fs: FileSystem, staged: StagingDirectory, destination: Path, recovery: Siblings)
    returns (r: Publication, ghost events: seq<Event>)
    requires fs.Valid()
    modifies fs
    ensures fs.Valid() && old(fs.steps) <= fs.steps && old(fs.denied) <= fs.denied
    ensures fs.events == old(fs.events) + events
    ensures Aftermath(destination, staged.commit, recovery, events, r)
    ensures fs.quiet && fs.reliable ==> (r == Published <==> DirectoryAt(old(fs.world), destination, staged.commit))
  {
    var found := fs.Inspect(destination);
    if found != Some(true) { return Failed, []; }
    var ok := fs.Verify(destination, staged.commit);
    if ok { return Published, [Verified(destination, staged.commit)]; }
    var unreadable := fs.Fault();
    if unreadable { return Failed, []; }
    r := Failed;
    events := MoveAside(fs, destination, recovery);
  }

  /** A directory that is not the published one is kept under another name. */
  method MoveAside(fs: FileSystem, destination: Path, recovery: Siblings) returns (ghost events: seq<Event>)
    requires fs.Valid()
    modifies fs
    ensures fs.Valid() && old(fs.steps) <= fs.steps && old(fs.denied) <= fs.denied
    ensures fs.events == old(fs.events) + events
    ensures events == [] || exists q :: Quarantine(recovery, q) && events == [Renamed(destination, q)]
    ensures events == [] ==> old(fs.denied) < fs.denied
  {
    var q;
    ghost var tried;
    q, tried := RenameToUniqueSibling(fs, destination, recovery);
    if q.None? { return []; }
    assert Quarantine(recovery, q.value);
    events := [Renamed(destination, q.value)];
  }

  /** The part before the rename. */
  method PreparePublication(fs: FileSystem, staged: StagingDirectory) returns (ok: bool, k: nat)
    requires fs.Valid()
    modifies fs
    ensures fs.Valid() && old(fs.steps) <= fs.steps && k <= 4 && (ok <==> k == 4)
    ensures fs.events == old(fs.events) + Prelude(staged.path, staged.commit)[..k]
    ensures fs.denied == old(fs.denied)
                         + if ok then [] else [Denial(Prelude(staged.path, staged.commit)[k], |fs.events|)]
    ensures fs.quiet && fs.reliable ==>
              fs.world == old(fs.world) && (ok <==> DirectoryAt(fs.world, staged.path, staged.commit))
  {
    k := 0;
    ok := fs.Verify(staged.path, staged.commit);
    if !ok { return; }
    k := 1;
    ok := fs.SetPermissions(staged.path);
    if !ok { return; }
    k := 2;
    ok := fs.Verify(staged.path, staged.commit);
    if !ok { return; }
    k := 3;
    ok := fs.Verify(staged.path, staged.commit);
    if ok { k := 4; }
  }

  /** The rename committed: then comes the aftermath, and no cleanup. */
  ghost predicate Committed(path: Path, commit: Id, destination: Path, recovery: Siblings, events: seq<Event>,
                            r: Publication) {
    exists after :: Aftermath(destination, commit, recovery, after, r)
                    && events == Prelude(path, commit) + [Renamed(path, destination)] + after
  }

  /** It did not, because the call that comes next, the rename at the latest, was refused: then comes
      a cleanup of the staging directory, unless its flag is set. */
  ghost predicate Withdrawn(path: Path, commit: Id, destination: Path, cleanup: Siblings, preserve: bool,
                            events: seq<Event>, denied: seq<Denial>, r: Publication) {
    exists q, j: nat, k: nat ::
      && Quarantine(cleanup, q) && j <= 4 && k <= 5 && (preserve ==> k == 0)
      && events == Prelude(path, commit)[..j] + Cleanup(path, commit, q)[..k]
      && denied != [] && denied[0].event == (Prelude(path, commit) + [Renamed(path, destination)])[j]
      && r != Published && (r == Contended ==> j == 4 && k == 5)
  }

  /** `publish_staged_git_directory` with `close_staging_directory`. `existing` is what the
      validation of an already present `.git` answers. */
  method PublishStagedGitDirectory(fs: FileSystem, staged: StagingDirectory, destination: Path, existing: bool,
                                   cleanup: Siblings, recovery: Siblings)
    returns (r: Publication, ghost events: seq<Event>)
    requires fs.Valid()
    modifies fs
    ensures fs.Valid() && old(fs.steps) <= fs.steps && old(fs.denied) <= fs.denied
    ensures fs.events == old(fs.events) + events
    ensures || Committed(staged.path, staged.commit, destination, recovery, events, r)
            || Withdrawn(staged.path, staged.commit, destination, cleanup, staged.preserve, events,
                         fs.denied[|old(fs.denied)|..], r)
    ensures fs.quiet && fs.reliable ==>
              var w := old(fs.world);
              var ready := DirectoryAt(w, staged.path, staged.commit) && CanRename(w, staged.path, destination);
              var taken := DirectoryAt(w, staged.path, staged.commit) && Resolve(w, destination).Some? && !ready;
              && (ready ==> Committed(staged.path, staged.commit, destination, recovery, events, r))
              && (!ready ==> Withdrawn(staged.path, staged.commit, destination, cleanup, staged.preserve, events,
                                       fs.denied[|old(fs.denied)|..], r))
              && (taken && existing && !staged.preserve ==> r == Contended || |fs.denied| > |old(fs.denied)| + 1)
  {
    var ok, j := CommitRename(fs, staged, destination);
    ghost var path, commit := staged.path, staged.commit;
    if ok {
      ghost var after;
      r, after := ValidatePublished(fs, staged, destination, recovery);
      events := Prelude(path, commit) + [Renamed(path, destination)] + after;
      return;
    }
    ghost var first := fs.denied[|old(fs.denied)|];
    r := Failed;
    if j == 4 {
      var found := fs.Inspect(destination);
      if found == Some(true) && existing { r := Contended; }
    }
    ghost var q, k;
    ok, q, k := CleanupStagingDirectory(fs, staged, cleanup);
    if !ok { r := Failed; }
    events := Prelude(path, commit)[..j] + Cleanup(path, commit, q)[..k];
    assert fs.denied[|old(fs.denied)|..][0] == first;
  }

  /** The calls up to and including the rename, or up to the first that is refused. */
  method CommitRename(fs: FileSystem, staged: StagingDirectory, destination: Path) returns (ok: bool, j: nat)
    requires fs.Valid()
    modifies fs
    ensures fs.Valid() && old(fs.steps) <= fs.steps && j <= 4 && (ok ==> j == 4)
    ensures fs.events == old(fs.events) + Prelude(staged.path, staged.commit)[..j]
                         + if ok then [Renamed(staged.path, destination)] else []
    ensures if ok then fs.denied == old(fs.denied) else
              && old(fs.denied) < fs.denied
              && fs.denied[|old(fs.denied)|].event ==
                 (Prelude(staged.path, staged.commit) + [Renamed(staged.path, destination)])[j]
    ensures !ok ==> |fs.denied| == |old(fs.denied)| + 1
    ensures fs.quiet && fs.reliable ==>
              && (ok <==> j == 4 && CanRename(old(fs.world), staged.path, destination))
              && (j == 4 <==> DirectoryAt(old(fs.world), staged.path, staged.commit))
              && (!ok ==> fs.world == old(fs.world))
  {
    ok, j := PreparePublication(fs, staged);
    if ok {
      ok := fs.RenameNoReplace(staged.path, destination);
    }
  }

  /** Once the rename committed, nothing is removed, and nothing else is renamed onto `.git`. */
  lemma CommittedIsNeverCleaned(path: Path, commit: Id, destination: Path, recovery: Siblings, events: seq<Event>,
                                r: Publication)
    requires Committed(path, commit, destination, recovery, events, r) && !Quarantine(recovery, destination)
    ensures Renamed(path, destination) in events && forall e | e in events :: !e.RemovedTree? && !e.RemovedEmpty?
    ensures forall e | e in events && e.Renamed? && e.dst == destination :: e == Renamed(path, destination)
  {
    var after :| Aftermath(destination, commit, recovery, after, r)
                 && events == Prelude(path, commit) + [Renamed(path, destination)] + after;
    forall e | e in after ensures !e.RemovedTree? && !e.RemovedEmpty? && (e.Renamed? ==> e.dst != destination) {
    }
  }

  /** Otherwise `.git` is not touched, only a quarantined staging directory is removed, and with
      the flag set nothing is. */
  lemma WithdrawnLeavesDestination(path: Path, commit: Id, destination: Path, cleanup: Siblings, preserve: bool,
                                   events: seq<Event>, denied: seq<Denial>, r: Publication)
    requires Withdrawn(path, commit, destination, cleanup, preserve, events, denied, r)
    requires !Quarantine(cleanup, destination)
    ensures forall e | e in events :: Harmless(e, destination, cleanup, preserve)
  {
    var q, j: nat, k: nat :|
      && Quarantine(cleanup, q) && j <= 4 && k <= 5 && (preserve ==> k == 0)
      && events == Prelude(path, commit)[..j] + Cleanup(path, commit, q)[..k]
      && denied != [] && denied[0].event == (Prelude(path, commit) + [Renamed(path, destination)])[j]
      && r != Published && (r == Contended ==> j == 4 && k == 5);
    forall e | e in Prelude(path, commit)[..j] ensures Harmless(e, destination, cleanup, preserve) {
      assert e in Prelude(path, commit);
    }
    forall e | e in Cleanup(path, commit, q)[..k] ensures Harmless(e, destination, cleanup, preserve) {
      assert e in Cleanup(path, commit, q);
    }
  }

  ghost predicate Harmless(e: Event, destination: Path, cleanup: Siblings, preserve: bool) {
    && !(e.Renamed? && e.dst == destination)
    && (e.RemovedTree? ==> !preserve && Quarantine(cleanup, e.path) && e.path != destination)
  }

  // ---- a failed transfer ----

  /** What a failed initialisation does with its two staging directories: the one that received
      the metadata first, then the one that held it. When the transfer set the flag, the source
      staging directory is left alone; the other one's flag is not set, and it is cleaned up. */
  method CloseAfterFailedTransfer(fs: FileSystem, received: StagingDirectory, held: StagingDirectory,
                                  siblings: Siblings,
                                  siblings': Siblings)
    returns (ghost q: Path, ghost k: nat, ghost q': Path, ghost k': nat)
    requires fs.Valid()
    modifies fs
    ensures fs.Valid() && old(fs.steps) <= fs.steps && Quarantine(siblings, q) && Quarantine(siblings', q') && k <= 5
            && k' <= 5
    ensures fs.events == old(fs.events) + Cleanup(received.path, received.commit, q)[..k]
                         + Cleanup(held.path, held.commit, q')[..k']
    ensures held.preserve ==> k' == 0
    ensures received.preserve ==> k == 0
    ensures old(fs.denied) <= fs.denied
  {
    var ok;
    ok, q, k := CleanupStagingDirectory(fs, received, siblings);
    ok, q', k' := CleanupStagingDirectory(fs, held, siblings');
  }
}
