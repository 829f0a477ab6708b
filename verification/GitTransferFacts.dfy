/** What the transfer script means: what moved, what was kept, and what a process that is alone
    ends up with. */
module GitTransferFacts {
  import opened Wrappers
  import opened FileTree
  import opened GitTransfer
  import opened Orders

  // ---- conservation ----

  /** Every object that is bound somewhere. */
  function Objects(w: World): set<Id> {
    set k | k in w.entries :: w.entries[k]
  }

  /** The one entry that a removal takes away: that of an empty directory. */
  ghost predicate UnbindsEmptyDirectory(w: World, path: Path, w': World) {
    exists slot | slot in w.entries ::
      && Slot(w, path) == Some(slot) && Resolve(w, path) == Some(w.entries[slot])
      && w.entries[slot] in w.directories && Listing(w, w.entries[slot]) == {}
      && w'.entries == w.entries - {slot}
  }

  /** Whatever others do in between, no call of a transfer or publication unbinds an object or
      rebinds a name; only the removal of a directory takes an entry away, and that directory is
      empty. */
  lemma OwnCallsLoseNothing(step: Step)
    requires Sound(step) && !step.event.RemovedTree?
    ensures !step.event.RemovedEmpty? ==> Objects(step.before) == Objects(step.after)
    ensures step.event.RemovedEmpty? ==> UnbindsEmptyDirectory(step.before, step.event.path, step.after)
    ensures forall k | k in step.before.entries && k in step.after.entries ::
              step.before.entries[k] == step.after.entries[k]
  {
    var w, w' := step.before, step.after;
    match step.event
    case Renamed(src, dst) =>
      var s, d := Slot(w, src).value, Slot(w, dst).value;
      forall id ensures id in Objects(w) <==> id in Objects(w') {
        if id in Objects(w) {
          var k :| k in w.entries && w.entries[k] == id;
          if k == s { assert w'.entries[d] == id; } else { assert w'.entries[k] == id; }
        }
      }
      assert Objects(w) == Objects(w');
    case RemovedEmpty(path) =>
      assert Slot(w, path).value in w.entries;
    case Verified(_, _) =>
    case Listed(_, _) =>
    case Permitted(_) =>
  }

  // ---- what a complete script changes ----

  function Changes(events: seq<Event>): seq<Event> {
    if events == [] then []
    else
      var last := events[|events| - 1];
      Changes(events[..|events| - 1]) + if last.Renamed? || last.RemovedEmpty? || last.RemovedTree? then [last] else []
  }

  lemma {:induction false} ChangesOfConcat(a: seq<Event>, b: seq<Event>)
    ensures Changes(a + b) == Changes(a) + Changes(b)
  {
    if b == [] {
      assert a + b == a;
    } else {
      assert (a + b)[..|a + b| - 1] == a + b[..|b| - 1];
      ChangesOfConcat(a, b[..|b| - 1]);
    }
  }

  lemma ChangesOfThree(a: Event, b: Event, c: Event)
    requires a.Verified? && b.Verified? && c.Verified?
    ensures Changes([a, b, c]) == []
  {
    assert [a, b, c] == [a] + [b] + [c];
    ChangesOfConcat([a] + [b], [c]);
    ChangesOfConcat([a], [b]);
    ChangesOfOne(a);
    ChangesOfOne(b);
    ChangesOfOne(c);
  }

  lemma ChangesOfOne(e: Event)
    ensures Changes([e]) == if e.Renamed? || e.RemovedEmpty? || e.RemovedTree? then [e] else []
  {
    assert [e][..0] == [];
  }

  function Renames(t: Transfer, names: seq<string>): (r: seq<Event>)
    ensures |r| == |names|
    ensures forall i | 0 <= i < |r| :: r[i] == Renamed(t.source + [names[i]], t.destination + [names[i]])
  {
    if names == [] then []
    else
      var last := names[|names| - 1];
      Renames(t, names[..|names| - 1]) + [Renamed(t.source + [last], t.destination + [last])]
  }

  lemma ChangesOfChecked(t: Transfer, e: Event)
    ensures Changes(Checks(t) + [e] + Checks(t)) == Changes([e])
  {
    ChangesOfConcat(Checks(t) + [e], Checks(t));
    ChangesOfConcat(Checks(t), [e]);
    ChangesOfThree(Checks(t)[0], Checks(t)[1], Checks(t)[2]);
  }

  lemma {:induction false} ChangesOfMoves(t: Transfer, names: seq<string>)
    ensures Changes(Moves(t, names)) == Renames(t, names)
  {
    if names != [] {
      var front, last := names[..|names| - 1], names[|names| - 1];
      ChangesOfMoves(t, front);
      ChangesOfConcat(Moves(t, front), MoveOne(t, last));
      ChangesOfChecked(t, Renamed(t.source + [last], t.destination + [last]));
      ChangesOfOne(Renamed(t.source + [last], t.destination + [last]));
    }
  }

  lemma ChangesOfRemoval(a: Event, b: Event, c: Event, list: Event, remove: Event, d: Event, e: Event)
    requires a.Verified? && b.Verified? && c.Verified? && list.Listed? && remove.RemovedEmpty? && d.Verified?
             && e.Verified?
    ensures Changes([a, b, c, list, remove, d, e]) == [remove]
  {
    assert [a, b, c, list, remove, d, e] == [a, b, c] + [list] + ([remove] + [d] + [e]);
    ChangesOfConcat([a, b, c] + [list], [remove] + [d] + [e]);
    ChangesOfConcat([a, b, c], [list]);
    ChangesOfThree(a, b, c);
    ChangesOfConcat([remove] + [d], [e]);
    ChangesOfConcat([remove], [d]);
    ChangesOfOne(list);
    ChangesOfOne(remove);
    ChangesOfOne(d);
    ChangesOfOne(e);
  }

  lemma ChangesOfClosing(t: Transfer)
    ensures Changes(Closing(t)) == [RemovedEmpty(t.source)]
  {
    ChangesOfRemoval(Verified(t.source, t.sourceId), Verified(t.root, t.rootId),
                     Verified(t.destination, t.destinationId),
                     Listed(t.source, {}), RemovedEmpty(t.source),
                     Verified(t.root, t.rootId), Verified(t.destination, t.destinationId));
  }

  /** A complete transfer moves each name of the snapshot once, in order, and then removes the
      source directory; it changes nothing else. */
  lemma TransferMovesEachOnce(t: Transfer, names: seq<string>)
    ensures Changes(Script(t, names)) == Renames(t, names) + [RemovedEmpty(t.source)]
  {
    var list := Listed(t.source, Elements(names));
    ChangesOfConcat(Opening(t, names), Moves(t, names) + Closing(t));
    ChangesOfConcat(Moves(t, names), Closing(t));
    ChangesOfChecked(t, list);
    ChangesOfOne(list);
    ChangesOfMoves(t, names);
    ChangesOfClosing(t);
  }

  // ---- a process that is alone ----

  /** Checks change nothing, and find all three directories in place. */
  lemma ChecksHold(t: Transfer, w: World, w': World)
    requires Run(w, Checks(t), w')
    ensures w' == w
    ensures DirectoryAt(w, t.root, t.rootId) && DirectoryAt(w, t.source, t.sourceId)
    ensures DirectoryAt(w, t.destination, t.destinationId)
  {
    var c := Checks(t);
    assert c == [c[0]] + ([c[1]] + [c[2]]);
    var m := RunSplits(w, [c[0]], [c[1]] + [c[2]], w');
    var n := RunSplits(m, [c[1]], [c[2]], w');
    RunOne(w, c[0], m);
    RunOne(m, c[1], n);
    RunOne(n, c[2], w');
  }

  /** `names` went from directory `s` to directory `d`; all else is as it was. */
  ghost predicate Carried(w: World, w': World, s: Id, d: Id, names: seq<string>) {
    && w'.directories == w.directories
    && (forall n | n in names ::
          && (s, n) in w.entries && (d, n) !in w.entries && (s, n) !in w'.entries
          && (d, n) in w'.entries && w'.entries[(d, n)] == w.entries[(s, n)])
    && (forall k | k in w.entries && !(k.0 == s && k.1 in names) :: k in w'.entries && w'.entries[k] == w.entries[k])
    && (forall k | k in w'.entries :: k in w.entries || (k.0 == d && k.1 in names))
  }

  lemma CarryOne(w: World, m: World, w': World, s: Id, d: Id, names: seq<string>, n: string)
    requires s != d && n !in names && Carried(w, m, s, d, names)
    requires (s, n) in m.entries && (d, n) !in m.entries
    requires w' == m.(entries := (m.entries - {(s, n)})[(d, n) := m.entries[(s, n)]])
    ensures Carried(w, w', s, d, names + [n])
  {
  }

  lemma RenameCarries(t: Transfer, n: string, w: World, w': World)
    requires Run(w, Checks(t) + [Renamed(t.source + [n], t.destination + [n])], w')
    ensures var s, d := t.sourceId, t.destinationId;
            && s != d && (s, n) in w.entries && (d, n) !in w.entries
            && w' == w.(entries := (w.entries - {(s, n)})[(d, n) := w.entries[(s, n)]])
  {
    var e := Renamed(t.source + [n], t.destination + [n]);
    var u := RunSplits(w, Checks(t), [e], w');
    ChecksHold(t, w, u);
    RunOne(w, e, w');
    assert (t.source + [n])[..|t.source|] == t.source && (t.destination + [n])[..|t.destination|] == t.destination;
  }

  lemma MoveCarries(t: Transfer, n: string, w: World, w': World)
    requires Run(w, MoveOne(t, n), w')
    ensures Run(w, Checks(t) + [Renamed(t.source + [n], t.destination + [n])], w')
  {
    var m := RunSplits(w, Checks(t) + [Renamed(t.source + [n], t.destination + [n])], Checks(t), w');
    ChecksHold(t, m, w');
  }

  lemma {:induction false} MovesCarry(t: Transfer, names: seq<string>, w: World, w': World)
    requires Run(w, Moves(t, names), w') && Increasing(names, TextLess)
    ensures Carried(w, w', t.sourceId, t.destinationId, names)
  {
    if names != [] {
      var front, last := names[..|names| - 1], names[|names| - 1];
      var m := RunSplits(w, Moves(t, front), MoveOne(t, last), w');
      MovesCarry(t, front, w, m);
      MoveCarries(t, last, m, w');
      RenameCarries(t, last, m, w');
      TextOrder();
      assert names == front + [last];
      assert last !in front by {
        forall i | 0 <= i < |front| ensures front[i] != last { assert TextLess(names[i], last); }
      }
      CarryOne(w, m, w', t.sourceId, t.destinationId, front, last);
    }
  }

  lemma OpeningLists(t: Transfer, names: seq<string>, w: World, w': World)
    requires Run(w, Opening(t, names), w')
    ensures w' == w && Elements(names) == Listing(w, t.sourceId) && DirectoryAt(w, t.root, t.rootId)
  {
    var e := Listed(t.source, Elements(names));
    var m := RunSplits(w, Checks(t) + [e], Checks(t), w');
    ChecksHold(t, m, w');
    var u := RunSplits(w, Checks(t), [e], m);
    ChecksHold(t, w, u);
    RunOne(u, e, m);
  }

  lemma ClosingRemoves(t: Transfer, leaf: string, w: World, w': World)
    requires Run(w, Closing(t), w') && t.source == t.root + [leaf]
    ensures (t.rootId, leaf) in w.entries && w.entries[(t.rootId, leaf)] == t.sourceId && Listing(w, t.sourceId) == {}
    ensures w' == World(w.directories - {t.sourceId}, w.entries - {(t.rootId, leaf)})
  {
    var c := Closing(t);
    assert c == [c[0]] + ([c[1]] + ([c[2]] + ([c[3]] + ([c[4]] + ([c[5]] + [c[6]])))));
    var w1 := RunSplits(w, [c[0]], [c[1]] + ([c[2]] + ([c[3]] + ([c[4]] + ([c[5]] + [c[6]])))), w');
    var w2 := RunSplits(w1, [c[1]], [c[2]] + ([c[3]] + ([c[4]] + ([c[5]] + [c[6]]))), w');
    var w3 := RunSplits(w2, [c[2]], [c[3]] + ([c[4]] + ([c[5]] + [c[6]])), w');
    var w4 := RunSplits(w3, [c[3]], [c[4]] + ([c[5]] + [c[6]]), w');
    var w5 := RunSplits(w4, [c[4]], [c[5]] + [c[6]], w');
    var w6 := RunSplits(w5, [c[5]], [c[6]], w');
    RunOne(w, c[0], w1);
    RunOne(w1, c[1], w2);
    RunOne(w2, c[2], w3);
    RunOne(w3, c[3], w4);
    RunOne(w4, c[4], w5);
    RunOne(w5, c[5], w6);
    RunOne(w6, c[6], w');
    assert t.source[..|t.source| - 1] == t.root;
  }

  /** The destination directory has gained exactly the entries of the source directory, under names
      it did not have, and the source directory is gone. Every other entry is as it was. */
  ghost predicate AllTransferred(t: Transfer, leaf: string, names: seq<string>, w: World, w': World) {
    && Elements(names) == Listing(w, t.sourceId)
    && (forall n | n in names ::
          && (t.destinationId, n) !in w.entries && (t.sourceId, n) in w.entries
          && (t.destinationId, n) in w'.entries && w'.entries[(t.destinationId, n)] == w.entries[(t.sourceId, n)])
    && (t.rootId, leaf) in w.entries && (t.rootId, leaf) !in w'.entries && Listing(w', t.sourceId) == {}
    && (forall k | k in w.entries && k.0 != t.sourceId && k != (t.rootId, leaf) ::
          k in w'.entries && w'.entries[k] == w.entries[k])
    && (forall k | k in w'.entries :: k in w.entries || (k.0 == t.destinationId && k.1 in names))
  }

  /** That is what a complete transfer by a process that is alone comes to. */
  lemma AloneTransfersAll(t: Transfer, leaf: string, names: seq<string>, w: World, w': World)
    requires Run(w, Script(t, names), w') && Increasing(names, TextLess)
    requires t.source == t.root + [leaf] && t.rootId != t.sourceId && t.rootId != t.destinationId
    ensures AllTransferred(t, leaf, names, w, w')
  {
    var u := RunSplits(w, Opening(t, names), Moves(t, names) + Closing(t), w');
    var m := RunSplits(u, Moves(t, names), Closing(t), w');
    OpeningLists(t, names, w, u);
    MovesCarry(t, names, u, m);
    ClosingRemoves(t, leaf, m, w');
    assert Listing(w', t.sourceId) <= Listing(m, t.sourceId);
    assert (t.rootId, leaf) in w.entries;
  }

  /** `move_directory_contents` on a file system that nobody else uses. */
  method TransferAlone(fs: FileSystem, sourceRoot: StagingDirectory, destinationRoot: StagingDirectory, t: Transfer,
                       ghost leaf: string)
    returns (ok: bool, ghost names: seq<string>)
    requires fs.Valid() && fs.quiet && Describes(t, sourceRoot, destinationRoot)
    requires t.source == t.root + [leaf] && t.rootId != t.sourceId && t.rootId != t.destinationId
    modifies fs, sourceRoot
    ensures fs.Valid() && (ok ==> AllTransferred(t, leaf, names, old(fs.world), fs.world))
  {
    ghost var k;
    ok, names, k := MoveDirectoryContents(fs, sourceRoot, destinationRoot, t);
    if ok {
      assert Script(t, names)[..k] == Script(t, names);
      AloneTransfersAll(t, leaf, names, old(fs.world), fs.world);
    }
  }
}
