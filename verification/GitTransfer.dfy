/** Moving freshly initialised Git metadata into a staging directory beside the repository,
    publishing it as `.git`, and cleaning up, while others may change anything
    (crates/jig-bootstrap/src/git.rs). */
module GitTransfer {
  import opened Wrappers
  import opened FileTree
  import opened Orders

  class StagingDirectory {
    const path: Path
    const commit: Id
    var preserve: bool

    constructor (path: Path, commit: Id)
      ensures this.path == path && this.commit == commit && !preserve
    {
      this.path, this.commit, preserve := path, commit, false;
    }
  }

  // ---- scripts ----

  /** A move of the contents of `source`, a directory inside the staging directory `root`, to
      `destination`, the path of another staging directory. */
  datatype Transfer = Transfer(root: Path, rootId: Id, source: Path, sourceId: Id, destination: Path, destinationId: Id)

  predicate Separate(t: Transfer) {
    t.source != t.root && t.source != t.destination
  }

  /** A check of one of the two staging directories themselves. */
  predicate RootCheck(t: Transfer, e: Event) {
    e == Verified(t.root, t.rootId) || e == Verified(t.destination, t.destinationId)
  }

  function Checks(t: Transfer): seq<Event> {
    [Verified(t.root, t.rootId), Verified(t.source, t.sourceId), Verified(t.destination, t.destinationId)]
  }

  function Opening(t: Transfer, names: seq<string>): seq<Event> {
    Checks(t) + [Listed(t.source, Elements(names))] + Checks(t)
  }

  function MoveOne(t: Transfer, name: string): seq<Event> {
    Checks(t) + [Renamed(t.source + [name], t.destination + [name])] + Checks(t)
  }

  function Moves(t: Transfer, names: seq<string>): seq<Event> {
    if names == [] then [] else Moves(t, names[..|names| - 1]) + MoveOne(t, names[|names| - 1])
  }

  function Closing(t: Transfer): seq<Event> {
    [Verified(t.source, t.sourceId), Verified(t.root, t.rootId), Verified(t.destination, t.destinationId),
     Listed(t.source, {}), RemovedEmpty(t.source),
     Verified(t.root, t.rootId), Verified(t.destination, t.destinationId)]
  }

  /** All that a complete transfer does, in order. */
  function Script(t: Transfer, names: seq<string>): seq<Event> {
    Opening(t, names) + (Moves(t, names) + Closing(t))
  }

  /** The first `k` events of `piece` happened and no others, because the next call was made and
      refused. Stopping short sets the flag, unless it is a staging directory itself that could not
      be verified. */
  ghost predicate Ran(t: Transfer, e0: Log, e1: Log, piece: seq<Event>, k: nat, p0: bool, p1: bool) {
    && k <= |piece| && e1.events == e0.events + piece[..k]
    && e1.denied == e0.denied + (if k < |piece| then [Denial(piece[k], |e1.events|)] else [])
    && (p1 <==> p0 || (k < |piece| && !RootCheck(t, piece[k])))
  }

  lemma RanThen(t: Transfer, e0: Log, e1: Log, e2: Log, first: seq<Event>, second: seq<Event>,
                k: nat, p0: bool, p1: bool, p2: bool)
    requires Ran(t, e0, e1, first, |first|, p0, p1) && Ran(t, e1, e2, second, k, p1, p2)
    ensures Ran(t, e0, e2, first + second, |first| + k, p0, p2)
  {
    assert (first + second)[..|first| + k] == first + second[..k];
    assert first[..|first|] == first;
  }

  lemma RanShort(t: Transfer, e0: Log, e1: Log, first: seq<Event>, second: seq<Event>,
                 k: nat, p0: bool, p1: bool)
    requires Ran(t, e0, e1, first, k, p0, p1) && k < |first|
    ensures Ran(t, e0, e1, first + second, k, p0, p1)
  {
    assert (first + second)[..k] == first[..k];
  }

  // ---- the steps of a transfer ----

  ghost predicate Describes(t: Transfer, sourceRoot: StagingDirectory, destinationRoot: StagingDirectory) {
    && Separate(t)
    && t.root == sourceRoot.path && t.rootId == sourceRoot.commit
    && t.destination == destinationRoot.path && t.destinationId == destinationRoot.commit
  }

  /** `require_staged_git_directory_identity`. */
  method RequireStagedGit(fs: FileSystem, root: StagingDirectory, t: Transfer) returns (ok: bool)
    requires fs.Valid() && Separate(t)
    modifies fs, root
    ensures fs.Valid() && old(fs.steps) <= fs.steps
    ensures Ran(t, old(fs.Logged()), fs.Logged(), [Verified(t.source, t.sourceId)], if ok then 1 else 0,
                old(root.preserve), root.preserve)
  {
    ok := fs.Verify(t.source, t.sourceId);
    if !ok { root.preserve := true; }
  }

  /** The three identity checks made around every step. */
  method RequireAll(fs: FileSystem, sourceRoot: StagingDirectory, destinationRoot: StagingDirectory, t: Transfer)
    returns (ok: bool, ghost k: nat)
    requires fs.Valid() && Describes(t, sourceRoot, destinationRoot)
    modifies fs, sourceRoot
    ensures fs.Valid() && old(fs.steps) <= fs.steps && (ok <==> k == |Checks(t)|)
    ensures Ran(t, old(fs.Logged()), fs.Logged(), Checks(t), k, old(sourceRoot.preserve), sourceRoot.preserve)
  {
    ok := fs.Verify(sourceRoot.path, sourceRoot.commit);
    if !ok { return false, 0; }
    ok := RequireStagedGit(fs, sourceRoot, t);
    if !ok { return false, 1; }
    ok := fs.Verify(destinationRoot.path, destinationRoot.commit);
    k := if ok then 3 else 2;
  }

  /** The rename of one entry; one that fails sets the flag. */
  method RenameEntry(fs: FileSystem, root: StagingDirectory, t: Transfer, name: string) returns (ok: bool)
    requires fs.Valid() && Separate(t)
    modifies fs, root
    ensures fs.Valid() && old(fs.steps) <= fs.steps
    ensures Ran(t, old(fs.Logged()), fs.Logged(), [Renamed(t.source + [name], t.destination + [name])],
                if ok then 1 else 0, old(root.preserve), root.preserve)
  {
    ok := fs.RenameNoReplace(t.source + [name], t.destination + [name]);
    if !ok { root.preserve := true; }
  }

  /** Moving one entry. */
  method MoveEntry(fs: FileSystem, sourceRoot: StagingDirectory, destinationRoot: StagingDirectory, t: Transfer,
                   name: string)
    returns (ok: bool, ghost k: nat)
    requires fs.Valid() && Describes(t, sourceRoot, destinationRoot)
    modifies fs, sourceRoot
    ensures fs.Valid() && old(fs.steps) <= fs.steps && (ok <==> k == |MoveOne(t, name)|)
    ensures Ran(t, old(fs.Logged()), fs.Logged(), MoveOne(t, name), k, old(sourceRoot.preserve), sourceRoot.preserve)
  {
    ghost var e0, p0, rename := fs.Logged(), sourceRoot.preserve, [Renamed(t.source + [name], t.destination + [name])];
    ok, k := RequireAll(fs, sourceRoot, destinationRoot, t);
    ghost var e1, p1 := fs.Logged(), sourceRoot.preserve;
    if !ok {
      RanShort(t, e0, e1, Checks(t), rename, k, p0, p1);
      RanShort(t, e0, e1, Checks(t) + rename, Checks(t), k, p0, p1);
      return;
    }
    ok := RenameEntry(fs, sourceRoot, t, name);
    ghost var e2, p2 := fs.Logged(), sourceRoot.preserve;
    k := if ok then 1 else 0;
    RanThen(t, e0, e1, e2, Checks(t), rename, k, p0, p1, p2);
    k := |Checks(t)| + k;
    if !ok {
      RanShort(t, e0, e2, Checks(t) + rename, Checks(t), k, p0, p2);
      return;
    }
    ok, k := RequireAll(fs, sourceRoot, destinationRoot, t);
    RanThen(t, e0, e2, fs.Logged(), Checks(t) + rename, Checks(t), k, p0, p2, sourceRoot.preserve);
    k := |Checks(t) + rename| + k;
  }

  /** The snapshot of the names, sorted. */
  method Snapshot(fs: FileSystem, sourceRoot: StagingDirectory, destinationRoot: StagingDirectory, t: Transfer)
    returns (ok: bool, names: seq<string>, ghost k: nat)
    requires fs.Valid() && Describes(t, sourceRoot, destinationRoot)
    modifies fs, sourceRoot
    ensures fs.Valid() && old(fs.steps) <= fs.steps && (ok <==> k == |Opening(t, names)|) && Increasing(names, TextLess)
    ensures Ran(t, old(fs.Logged()), fs.Logged(), Opening(t, names), k, old(sourceRoot.preserve), sourceRoot.preserve)
  {
    ghost var e0, p0 := fs.Logged(), sourceRoot.preserve;
    names := [];
    ok, k := RequireAll(fs, sourceRoot, destinationRoot, t);
    ghost var e1, p1 := fs.Logged(), sourceRoot.preserve;
    if !ok {
      RanShort(t, e0, e1, Checks(t), [Listed(t.source, Elements(names))], k, p0, p1);
      RanShort(t, e0, e1, Checks(t) + [Listed(t.source, Elements(names))], Checks(t), k, p0, p1);
      return;
    }
    ok, names := ListNames(fs, sourceRoot, t);
    ghost var list := [Listed(t.source, Elements(names))];
    ghost var e2, p2 := fs.Logged(), sourceRoot.preserve;
    k := if ok then 1 else 0;
    RanThen(t, e0, e1, e2, Checks(t), list, k, p0, p1, p2);
    k := |Checks(t)| + k;
    if !ok {
      RanShort(t, e0, e2, Checks(t) + list, Checks(t), k, p0, p2);
      return;
    }
    ok, k := RequireAll(fs, sourceRoot, destinationRoot, t);
    RanThen(t, e0, e2, fs.Logged(), Checks(t) + list, Checks(t), k, p0, p2, sourceRoot.preserve);
    k := |Checks(t) + list| + k;
  }

  /** The names in the source directory, sorted; a listing that fails sets the flag. */
  method ListNames(fs: FileSystem, root: StagingDirectory, t: Transfer) returns (ok: bool, names: seq<string>)
    requires fs.Valid() && Separate(t)
    modifies fs, root
    ensures fs.Valid() && old(fs.steps) <= fs.steps && Increasing(names, TextLess)
    ensures Ran(t, old(fs.Logged()), fs.Logged(), [Listed(t.source, Elements(names))], if ok then 1 else 0,
                old(root.preserve), root.preserve)
  {
    names := [];
    var found := fs.ReadDirectory(t.source);
    ok := found.Some?;
    if ok {
      names := SortedNames(found.value);
    } else {
      root.preserve := true;
      assert Elements<string>([]) == {};
    }
  }

  method SortedNames(names: set<string>) returns (r: seq<string>)
    ensures Increasing(r, TextLess) && Elements(r) == names
  {
    var rest, found := names, [];
    while rest != {}
      invariant Elements(found) + rest == names
    {
      var name :| name in rest;
      found, rest := found + [name], rest - {name};
    }
    TextOrder();
    CanonicalOf(found, TextLess);
    r := Canonical(found, TextLess);
  }

  /** The last checks, and the removal of the emptied directory. */
  method Finish(fs: FileSystem, sourceRoot: StagingDirectory, destinationRoot: StagingDirectory, t: Transfer)
    returns (ok: bool, ghost k: nat)
    requires fs.Valid() && Describes(t, sourceRoot, destinationRoot)
    modifies fs, sourceRoot
    ensures fs.Valid() && old(fs.steps) <= fs.steps && (ok <==> k == |Closing(t)|)
    ensures Ran(t, old(fs.Logged()), fs.Logged(), Closing(t), k, old(sourceRoot.preserve), sourceRoot.preserve)
  {
    ghost var e0, p0, first, second := fs.Logged(), sourceRoot.preserve, LastChecks(t), Removal(t);
    assert Closing(t) == first + second;
    ok, k := CheckEmptied(fs, sourceRoot, destinationRoot, t);
    if !ok {
      RanShort(t, e0, fs.Logged(), first, second, k, p0, sourceRoot.preserve);
      return;
    }
    ghost var e1, p1 := fs.Logged(), sourceRoot.preserve;
    ok, k := RemoveEmptied(fs, sourceRoot, destinationRoot, t);
    RanThen(t, e0, e1, fs.Logged(), first, second, k, p0, p1, sourceRoot.preserve);
    k := |first| + k;
  }

  function LastChecks(t: Transfer): seq<Event> {
    [Verified(t.source, t.sourceId), Verified(t.root, t.rootId), Verified(t.destination, t.destinationId)]
  }

  function Removal(t: Transfer): seq<Event> {
    [Listed(t.source, {}), RemovedEmpty(t.source), Verified(t.root, t.rootId), Verified(t.destination, t.destinationId)]
  }

  method CheckEmptied(fs: FileSystem, sourceRoot: StagingDirectory, destinationRoot: StagingDirectory, t: Transfer)
    returns (ok: bool, ghost k: nat)
    requires fs.Valid() && Describes(t, sourceRoot, destinationRoot)
    modifies fs, sourceRoot
    ensures fs.Valid() && old(fs.steps) <= fs.steps && (ok <==> k == |LastChecks(t)|)
    ensures Ran(t, old(fs.Logged()), fs.Logged(), LastChecks(t), k, old(sourceRoot.preserve), sourceRoot.preserve)
  {
    ok := RequireStagedGit(fs, sourceRoot, t);
    if !ok { return false, 0; }
    ok := fs.Verify(sourceRoot.path, sourceRoot.commit);
    if !ok { return false, 1; }
    ok := fs.Verify(destinationRoot.path, destinationRoot.commit);
    k := if ok then 3 else 2;
  }

  method RemoveEmptied(fs: FileSystem, sourceRoot: StagingDirectory, destinationRoot: StagingDirectory, t: Transfer)
    returns (ok: bool, ghost k: nat)
    requires fs.Valid() && Describes(t, sourceRoot, destinationRoot)
    modifies fs, sourceRoot
    ensures fs.Valid() && old(fs.steps) <= fs.steps && (ok <==> k == |Removal(t)|)
    ensures Ran(t, old(fs.Logged()), fs.Logged(), Removal(t), k, old(sourceRoot.preserve), sourceRoot.preserve)
  {
    ok, k := RemoveSource(fs, sourceRoot, t);
    assert fs.events == old(fs.events) + Removal(t)[..k];
    if !ok { return; }
    ok := fs.Verify(sourceRoot.path, sourceRoot.commit);
    if !ok { return false, 2; }
    ok := fs.Verify(destinationRoot.path, destinationRoot.commit);
    k := if ok then 4 else 3;
  }

  /** Refuses a late entry; the directory must be empty again when it is removed. */
  method RemoveSource(fs: FileSystem, sourceRoot: StagingDirectory, t: Transfer) returns (ok: bool, ghost k: nat)
    requires fs.Valid() && Separate(t)
    modifies fs, sourceRoot
    ensures fs.Valid() && old(fs.steps) <= fs.steps && (ok <==> k == 2)
    ensures Ran(t, old(fs.Logged()), fs.Logged(), [Listed(t.source, {}), RemovedEmpty(t.source)], k,
                old(sourceRoot.preserve), sourceRoot.preserve)
  {
    ok := fs.ReadEmpty(t.source);
    if !ok {
      sourceRoot.preserve := true;
      return false, 0;
    }
    ok := fs.RemoveDirectory(t.source);
    if !ok {
      sourceRoot.preserve := true;
      return false, 1;
    }
    k := 2;
  }

  /** `move_directory_contents_with`. The events are a prefix of the script, and all of it exactly
      on success; a transfer that stops short sets the flag of the source staging directory,
      unless it stopped because one of the staging directories could not be verified. */
  method MoveDirectoryContents(fs: FileSystem, sourceRoot: StagingDirectory, destinationRoot: StagingDirectory,
                               t: Transfer)
    returns (ok: bool, ghost names: seq<string>, ghost k: nat)
    requires fs.Valid() && Describes(t, sourceRoot, destinationRoot)
    modifies fs, sourceRoot
    ensures fs.Valid() && old(fs.steps) <= fs.steps && Increasing(names, TextLess) && (ok <==> k == |Script(t, names)|)
    ensures Ran(t, old(fs.Logged()), fs.Logged(), Script(t, names), k, old(sourceRoot.preserve), sourceRoot.preserve)
    ensures fs.quiet ==> Run(old(fs.world), Script(t, names)[..k], fs.world)
    ensures fs.quiet && fs.reliable && !ok ==> Impossible(fs.world, Script(t, names)[k])
  {
    ok, names, k := FollowScript(fs, sourceRoot, destinationRoot, t);
    if fs.quiet {
      NewEventsRun(fs);
      assert fs.events[|old(fs.events)|..] == Script(t, names)[..k];
    }
    assert !ok ==> fs.denied[|fs.denied| - 1] in fs.denied;
  }

  /** The transfer itself. */
  method FollowScript(fs: FileSystem, sourceRoot: StagingDirectory, destinationRoot: StagingDirectory, t: Transfer)
    returns (ok: bool, ghost names: seq<string>, ghost k: nat)
    requires fs.Valid() && Describes(t, sourceRoot, destinationRoot)
    modifies fs, sourceRoot
    ensures fs.Valid() && old(fs.steps) <= fs.steps
    ensures Increasing(names, TextLess) && (ok <==> k == |Script(t, names)|)
    ensures Ran(t, old(fs.Logged()), fs.Logged(), Script(t, names), k, old(sourceRoot.preserve), sourceRoot.preserve)
  {
    ghost var e0, p0 := fs.Logged(), sourceRoot.preserve;
    var entries;
    ok, entries, k := Snapshot(fs, sourceRoot, destinationRoot, t);
    names := entries;
    ghost var opening, rest := Opening(t, entries), Moves(t, entries) + Closing(t);
    if !ok {
      RanShort(t, e0, fs.Logged(), opening, rest, k, p0, sourceRoot.preserve);
      return;
    }
    ghost var e1, p1 := fs.Logged(), sourceRoot.preserve;
    ok, k := MoveAndFinish(fs, sourceRoot, destinationRoot, t, entries);
    RanThen(t, e0, e1, fs.Logged(), opening, rest, k, p0, p1, sourceRoot.preserve);
    k := |opening| + k;
  }

  method MoveAndFinish(fs: FileSystem, sourceRoot: StagingDirectory, destinationRoot: StagingDirectory, t: Transfer,
                       names: seq<string>)
    returns (ok: bool, ghost k: nat)
    requires fs.Valid() && Describes(t, sourceRoot, destinationRoot)
    modifies fs, sourceRoot
    ensures fs.Valid() && old(fs.steps) <= fs.steps && (ok <==> k == |Moves(t, names) + Closing(t)|)
    ensures Ran(t, old(fs.Logged()), fs.Logged(), Moves(t, names) + Closing(t), k, old(sourceRoot.preserve),
                sourceRoot.preserve)
  {
    ghost var e0, p0, moves, closing := fs.Logged(), sourceRoot.preserve, Moves(t, names), Closing(t);
    ok, k := MoveEntries(fs, sourceRoot, destinationRoot, t, names);
    if !ok {
      RanShort(t, e0, fs.Logged(), moves, closing, k, p0, sourceRoot.preserve);
      return;
    }
    ghost var e1, p1 := fs.Logged(), sourceRoot.preserve;
    ok, k := Finish(fs, sourceRoot, destinationRoot, t);
    RanThen(t, e0, e1, fs.Logged(), moves, closing, k, p0, p1, sourceRoot.preserve);
    k := |moves| + k;
  }

  method MoveEntries(fs: FileSystem, sourceRoot: StagingDirectory, destinationRoot: StagingDirectory, t: Transfer,
                     names: seq<string>)
    returns (ok: bool, ghost k: nat)
    requires fs.Valid() && Describes(t, sourceRoot, destinationRoot)
    modifies fs, sourceRoot
    ensures fs.Valid() && old(fs.steps) <= fs.steps && (ok <==> k == |Moves(t, names)|)
    ensures Ran(t, old(fs.Logged()), fs.Logged(), Moves(t, names), k, old(sourceRoot.preserve), sourceRoot.preserve)
  {
    ghost var e0, p0 := fs.Logged(), sourceRoot.preserve;
    var i := 0;
    while i < |names|
      invariant 0 <= i <= |names| && fs.Valid() && old(fs.steps) <= fs.steps
      invariant RanFirst(t, e0, fs.Logged(), names, i, p0, sourceRoot.preserve)
    {
      ghost var e1, p1 := fs.Logged(), sourceRoot.preserve;
      ok, k := MoveEntry(fs, sourceRoot, destinationRoot, t, names[i]);
      if !ok {
        k := RanInto(t, e0, e1, fs.Logged(), names, i, k, p0, p1, sourceRoot.preserve);
        return;
      }
      RanOneMore(t, e0, e1, fs.Logged(), names, i, |MoveOne(t, names[i])|, p0, p1, sourceRoot.preserve);
      i := i + 1;
    }
    assert names[..i] == names;
    ok, k := true, |Moves(t, names)|;
  }

  ghost predicate RanFirst(t: Transfer, e0: Log, e1: Log, names: seq<string>, i: nat, p0: bool, p1: bool)
    requires i <= |names|
  {
    Ran(t, e0, e1, Moves(t, names[..i]), |Moves(t, names[..i])|, p0, p1)
  }

  lemma RanInto(t: Transfer, e0: Log, e1: Log, e2: Log, names: seq<string>, i: nat, k: nat,
                p0: bool, p1: bool, p2: bool) returns (n: nat)
    requires i < |names| && RanFirst(t, e0, e1, names, i, p0, p1) && k < |MoveOne(t, names[i])|
    requires Ran(t, e1, e2, MoveOne(t, names[i]), k, p1, p2)
    ensures Ran(t, e0, e2, Moves(t, names), n, p0, p2) && n < |Moves(t, names)|
  {
    RanOneMore(t, e0, e1, e2, names, i, k, p0, p1, p2);
    n := |Moves(t, names[..i])| + k;
    RanLeft(t, e0, e2, names, i + 1, n, p0, p2);
  }

  lemma RanOneMore(t: Transfer, e0: Log, e1: Log, e2: Log, names: seq<string>, i: nat, k: nat,
                   p0: bool, p1: bool, p2: bool)
    requires i < |names| && RanFirst(t, e0, e1, names, i, p0, p1)
    requires Ran(t, e1, e2, MoveOne(t, names[i]), k, p1, p2)
    ensures |Moves(t, names[..i + 1])| == |Moves(t, names[..i])| + |MoveOne(t, names[i])|
    ensures Ran(t, e0, e2, Moves(t, names[..i + 1]), |Moves(t, names[..i])| + k, p0, p2)
  {
    assert names[..i + 1][..i] == names[..i];
    RanThen(t, e0, e1, e2, Moves(t, names[..i]), MoveOne(t, names[i]), k, p0, p1, p2);
  }

  /** Stopping while moving an early entry leaves the later ones undone. */
  lemma {:induction false} RanLeft(t: Transfer, e0: Log, e1: Log, names: seq<string>,
                                   i: nat, k: nat, p0: bool, p1: bool)
    requires i <= |names| && Ran(t, e0, e1, Moves(t, names[..i]), k, p0, p1) && k < |Moves(t, names[..i])|
    ensures Ran(t, e0, e1, Moves(t, names), k, p0, p1) && k < |Moves(t, names)|
    decreases |names| - i
  {
    if i == |names| {
      assert names[..i] == names;
    } else {
      assert names[..i + 1][..i] == names[..i];
      RanShort(t, e0, e1, Moves(t, names[..i]), MoveOne(t, names[i]), k, p0, p1);
      RanLeft(t, e0, e1, names, i + 1, k, p0, p1);
    }
  }
}
