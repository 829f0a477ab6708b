/** The transfer step of initialising Git metadata, and what becomes of its two staging directories
    when it fails (crates/jig-bootstrap/src/git/init.rs). */
module GitInitTransfer {
  import opened Wrappers
  import opened FileTree
  import opened GitTransfer
  import opened GitPublication
  import opened Orders

  /** Both staging directories are still there. */
  function Roots(t: Transfer): seq<Event> {
    [Verified(t.root, t.rootId), Verified(t.destination, t.destinationId)]
  }

  function BeforeMoves(t: Transfer, names: seq<string>): seq<Event> {
    Roots(t) + Opening(t, names)
  }

  function AfterMoves(t: Transfer): seq<Event> {
    Closing(t) + (Roots(t) + Roots(t))
  }

  /** All that the step does when nothing goes wrong. */
  function InitScript(t: Transfer, names: seq<string>): seq<Event> {
    Roots(t) + (Script(t, names) + (Roots(t) + Roots(t)))
  }

  lemma InitScriptParts(t: Transfer, names: seq<string>)
    ensures InitScript(t, names) == BeforeMoves(t, names) + (Moves(t, names) + AfterMoves(t))
  {
  }

  /** As `Ran`, but with an excuse it may also stop without a call that was refused. */
  ghost predicate RanUnless(excuse: bool, t: Transfer, e0: Log, e1: Log, piece: seq<Event>, k: nat, p0: bool,
                            p1: bool)
  {
    && k <= |piece| && e1.events == e0.events + piece[..k]
    && (|| e1.denied == e0.denied + (if k < |piece| then [Denial(piece[k], |e1.events|)] else [])
        || (excuse && k < |piece| && e1.denied == e0.denied))
    && (p1 <==> p0 || (k < |piece| && !RootCheck(t, piece[k])))
  }

  lemma UnlessThen(excuse: bool, t: Transfer, e0: Log, e1: Log, e2: Log, first: seq<Event>, second: seq<Event>,
                   k: nat, p0: bool, p1: bool, p2: bool)
    requires Ran(t, e0, e1, first, |first|, p0, p1) && RanUnless(excuse, t, e1, e2, second, k, p1, p2)
    ensures RanUnless(excuse, t, e0, e2, first + second, |first| + k, p0, p2)
  {
    assert (first + second)[..|first| + k] == first + second[..k];
    assert first[..|first|] == first;
  }

  method RequireRoots(fs: FileSystem, held: StagingDirectory, received: StagingDirectory, t: Transfer)
    returns (ok: bool, ghost k: nat)
    requires fs.Valid() && Describes(t, held, received)
    modifies fs
    ensures fs.Valid() && old(fs.steps) <= fs.steps && (ok <==> k == |Roots(t)|)
    ensures Ran(t, old(fs.Logged()), fs.Logged(), Roots(t), k, held.preserve, held.preserve)
  {
    ok := fs.Verify(held.path, held.commit);
    if !ok { return false, 0; }
    ok := fs.Verify(received.path, received.commit);
    k := if ok then 2 else 1;
  }

  /** The checks after the transfer, with the validation of the repository between them; its answer
      is `valid`. */
  method RequireRootsAndValidate(fs: FileSystem, held: StagingDirectory, received: StagingDirectory, t: Transfer,
                                 valid: bool)
    returns (ok: bool, ghost k: nat)
    requires fs.Valid() && Describes(t, held, received)
    modifies fs
    ensures fs.Valid() && old(fs.steps) <= fs.steps && (ok <==> k == |Roots(t) + Roots(t)|) && (ok ==> valid)
    ensures RanUnless(!valid, t, old(fs.Logged()), fs.Logged(), Roots(t) + Roots(t), k, held.preserve, held.preserve)
  {
    ghost var e0, p := fs.Logged(), held.preserve;
    ok, k := RequireRoots(fs, held, received, t);
    if !ok {
      RanShort(t, e0, fs.Logged(), Roots(t), Roots(t), k, p, p);
      return;
    }
    if !valid {
      UnlessThen(true, t, e0, fs.Logged(), fs.Logged(), Roots(t), Roots(t), 0, p, p, p);
      return false, 2;
    }
    ghost var e1 := fs.Logged();
    ok, k := RequireRoots(fs, held, received, t);
    RanThen(t, e0, e1, fs.Logged(), Roots(t), Roots(t), k, p, p, p);
    k := 2 + k;
  }

  /** The transfer closure. `readable` tells whether the permissions of the source could be read. */
  method TransferMetadata(fs: FileSystem, held: StagingDirectory, received: StagingDirectory, t: Transfer,
                          readable: bool, valid: bool)
    returns (ok: bool, ghost names: seq<string>, ghost k: nat)
    requires fs.Valid() && Describes(t, held, received)
    modifies fs, held
    ensures fs.Valid() && old(fs.steps) <= fs.steps && Increasing(names, TextLess)
    ensures (ok <==> k == |InitScript(t, names)|) && (ok ==> readable && valid)
    ensures RanUnless(!readable || !valid, t, old(fs.Logged()), fs.Logged(), InitScript(t, names), k,
                      old(held.preserve), held.preserve)
  {
    ghost var e0, p0, roots, ends := fs.Logged(), held.preserve, Roots(t), Roots(t) + Roots(t);
    names := [];
    ok, k := RequireRoots(fs, held, received, t);
    ghost var e1 := fs.Logged();
    if !ok {
      RanShort(t, e0, e1, roots, Script(t, names) + ends, k, p0, p0);
      return;
    }
    if !readable {
      assert (Script(t, names) + ends)[0] == Verified(t.root, t.rootId);
      UnlessThen(true, t, e0, e1, e1, roots, Script(t, names) + ends, 0, p0, p0, p0);
      return false, names, 2;
    }
    ok, names, k := TransferAndValidate(fs, held, received, t, valid);
    UnlessThen(!valid, t, e0, e1, fs.Logged(), roots, Script(t, names) + ends, k, p0, p0, held.preserve);
    k := 2 + k;
  }

  method TransferAndValidate(fs: FileSystem, held: StagingDirectory, received: StagingDirectory, t: Transfer,
                             valid: bool)
    returns (ok: bool, ghost names: seq<string>, ghost k: nat)
    requires fs.Valid() && Describes(t, held, received)
    modifies fs, held
    ensures fs.Valid() && old(fs.steps) <= fs.steps && Increasing(names, TextLess)
    ensures (ok <==> k == |Script(t, names) + (Roots(t) + Roots(t))|) && (ok ==> valid)
    ensures RanUnless(!valid, t, old(fs.Logged()), fs.Logged(), Script(t, names) + (Roots(t) + Roots(t)), k,
                      old(held.preserve), held.preserve)
  {
    ghost var e0, p0, ends := fs.Logged(), held.preserve, Roots(t) + Roots(t);
    ok, names, k := MoveDirectoryContents(fs, held, received, t);
    ghost var e1, p1, script := fs.Logged(), held.preserve, Script(t, names);
    if !ok {
      RanShort(t, e0, e1, script, ends, k, p0, p1);
      return;
    }
    ok, k := RequireRootsAndValidate(fs, held, received, t, valid);
    UnlessThen(!valid, t, e0, e1, fs.Logged(), script, ends, k, p0, p1, p1);
    k := |script| + k;
  }

  /** Where a step stopped: after `k` events of the script, with `j` events of the cleanup of the
      receiving directory and `j'` of the holding one. */
  datatype Failure = Failure(k: nat, q: Path, j: nat, q': Path, j': nat)

  ghost predicate Possible(t: Transfer, names: seq<string>, f: Failure) {
    f.k < |InitScript(t, names)| && f.j <= 5 && f.j' <= 5
  }

  /** What a failed step logs: the script up to some point, then the cleanup of the directory that
      received the metadata, then that of the one that held it. */
  ghost function FailureLog(t: Transfer, names: seq<string>, f: Failure): seq<Event>
    requires Possible(t, names, f)
  {
    InitScript(t, names)[..f.k] + Cleanup(t.destination, t.destinationId, f.q)[..f.j]
        + Cleanup(t.root, t.rootId, f.q')[..f.j']
  }

  /** What any step logs. */
  ghost predicate StepLog(t: Transfer, names: seq<string>, f: Option<Failure>, events: seq<Event>) {
    if f.None? then events == InitScript(t, names)
    else Possible(t, names, f.value) && events == FailureLog(t, names, f.value)
  }

  /** The step with its failure path. A flag that the transfer set keeps the holding directory from
      being cleaned up; the receiving one is never flagged. */
  method TransferOrClose(fs: FileSystem, held: StagingDirectory, received: StagingDirectory, t: Transfer,
                         readable: bool, valid: bool, siblings: Siblings, siblings': Siblings)
    returns (ok: bool, ghost names: seq<string>, ghost f: Option<Failure>, ghost events: seq<Event>)
    requires fs.Valid() && Describes(t, held, received) && !held.preserve
    modifies fs, held
    ensures fs.Valid() && fs.events == old(fs.events) + events
    ensures Increasing(names, TextLess) && (ok <==> f.None?) && StepLog(t, names, f, events)
    ensures f.Some? ==> Quarantine(siblings, f.value.q) && Quarantine(siblings', f.value.q')
    ensures held.preserve <==> f.Some? && !RootCheck(t, InitScript(t, names)[f.value.k])
    ensures held.preserve ==> f.value.j' == 0
    ensures ok ==> readable && valid
    ensures f.Some? && readable && valid ==>
              old(fs.denied) < fs.denied && fs.denied[|old(fs.denied)|].event == InitScript(t, names)[f.value.k]
    ensures fs.quiet ==> Run(old(fs.world), events, fs.world)
  {
    ok, names, f, events := TransferAndClose(fs, held, received, t, readable, valid, siblings, siblings');
    if fs.quiet {
      NewEventsRun(fs);
      assert fs.events[|old(fs.events)|..] == events;
    }
  }

  method TransferAndClose(fs: FileSystem, held: StagingDirectory, received: StagingDirectory, t: Transfer,
                          readable: bool, valid: bool, siblings: Siblings, siblings': Siblings)
    returns (ok: bool, ghost names: seq<string>, ghost f: Option<Failure>, ghost events: seq<Event>)
    requires fs.Valid() && Describes(t, held, received) && !held.preserve
    modifies fs, held
    ensures fs.Valid() && old(fs.steps) <= fs.steps && fs.events == old(fs.events) + events
    ensures Increasing(names, TextLess) && (ok <==> f.None?) && StepLog(t, names, f, events)
    ensures f.Some? ==> Quarantine(siblings, f.value.q) && Quarantine(siblings', f.value.q')
    ensures held.preserve <==> f.Some? && !RootCheck(t, InitScript(t, names)[f.value.k])
    ensures held.preserve ==> f.value.j' == 0
    ensures ok ==> readable && valid
    ensures f.Some? && readable && valid ==>
              old(fs.denied) < fs.denied && fs.denied[|old(fs.denied)|].event == InitScript(t, names)[f.value.k]
  {
    ghost var k;
    ok, names, k := TransferMetadata(fs, held, received, t, readable, valid);
    ghost var script := InitScript(t, names);
    if ok {
      assert script[..k] == script;
      f, events := None, script;
    } else {
      ghost var q, j, q', j' := CloseAfterFailedTransfer(fs, received, held, siblings, siblings');
      f := Some(Failure(k, q, j, q', j'));
      events := FailureLog(t, names, f.value);
      Regrouped(old(fs.events), script[..k], Cleanup(t.destination, t.destinationId, q)[..j],
                Cleanup(t.root, t.rootId, q')[..j']);
    }
  }

  lemma Regrouped(a: seq<Event>, b: seq<Event>, c: seq<Event>, d: seq<Event>)
    ensures a + b + c + d == a + (b + c + d)
  {
  }
}
