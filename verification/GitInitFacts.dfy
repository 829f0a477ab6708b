/** What a failed transfer loses: the exact condition, and the smallest case. */
module GitInitFacts {
  import opened Wrappers
  import opened FileTree
  import opened GitTransfer
  import opened GitTransferFacts
  import opened GitPublication
  import opened GitInitTransfer
  import opened Orders

  ghost predicate HasRename(events: seq<Event>) {
    exists i | 0 <= i < |events| :: events[i].Renamed?
  }

  /** Calls that only look. */
  ghost predicate Looks(events: seq<Event>) {
    forall i | 0 <= i < |events| :: events[i].Verified? || events[i].Listed?
  }

  lemma {:induction false} LooksChangeNothing(events: seq<Event>, w: World, w': World)
    requires Looks(events) && Run(w, events, w')
    ensures w' == w
    decreases events
  {
    if events != [] {
      var m :| Sound(Step(w, events[0], m)) && Run(m, events[1..], w');
      LooksChangeNothing(events[1..], m, w');
    }
  }

  /** What directory `d` holds in `w'` is what it held in `w` and the entries `moved` of `s`. */
  ghost predicate Received(w: World, w': World, s: Id, d: Id, moved: seq<string>) {
    && (forall n | n in moved :: Transferred(w, w', s, d, n))
    && (forall k | k in w.entries && k.0 == d :: k in w'.entries && w'.entries[k] == w.entries[k])
    && (forall k | k in w'.entries && k.0 == d :: k in w.entries || k.1 in moved)
  }

  /** Directory `d` has gained the entry `n` of `s`. */
  ghost predicate Transferred(w: World, w': World, s: Id, d: Id, n: string) {
    && (s, n) in w.entries && (d, n) !in w.entries
    && (d, n) in w'.entries && w'.entries[(d, n)] == w.entries[(s, n)]
  }

  /** The entries of one directory are the same in both worlds. */
  ghost predicate SameIn(w: World, w': World, d: Id) {
    && (forall k | k in w.entries && k.0 == d :: k in w'.entries && w'.entries[k] == w.entries[k])
    && (forall k | k in w'.entries && k.0 == d :: k in w.entries)
  }

  // ---- prefixes of the script ----

  lemma MovePrefix(t: Transfer, n: string, k: nat, w: World, w': World)
    requires k <= |MoveOne(t, n)| && Run(w, MoveOne(t, n)[..k], w')
    ensures k <= 3 ==> w' == w && !HasRename(MoveOne(t, n)[..k])
    ensures k > 3 ==> Run(w, Checks(t) + [Renamed(t.source + [n], t.destination + [n])], w')
                      && HasRename(MoveOne(t, n)[..k])
  {
    var e := Renamed(t.source + [n], t.destination + [n]);
    var prefix := MoveOne(t, n)[..k];
    if k <= 3 {
      LooksChangeNothing(prefix, w, w');
    } else {
      assert prefix == (Checks(t) + [e]) + Checks(t)[..k - 4];
      var m := RunSplits(w, Checks(t) + [e], Checks(t)[..k - 4], w');
      LooksChangeNothing(Checks(t)[..k - 4], m, w');
      assert prefix[3] == e;
    }
  }

  lemma MovesRename(t: Transfer, names: seq<string>)
    requires names != []
    ensures HasRename(Moves(t, names))
  {
    var front, last := names[..|names| - 1], names[|names| - 1];
    assert MoveOne(t, last)[3].Renamed?;
    assert Moves(t, names)[|Moves(t, front)| + 3] == MoveOne(t, last)[3];
  }

  lemma RenameInParts(a: seq<Event>, b: seq<Event>)
    ensures HasRename(a + b) <==> HasRename(a) || HasRename(b)
  {
    if i :| 0 <= i < |a| && a[i].Renamed? { assert (a + b)[i].Renamed?; }
    if i :| 0 <= i < |b| && b[i].Renamed? { assert (a + b)[|a| + i].Renamed?; }
    if i :| 0 <= i < |a + b| && (a + b)[i].Renamed? {
      if i < |a| { assert a[i].Renamed?; } else { assert b[i - |a|].Renamed?; }
    }
  }

  /** However far the moves got, some of the names are across. */
  lemma {:induction false} MovesPrefix(t: Transfer, names: seq<string>, k: nat, w: World, w': World)
    returns (moved: seq<string>)
    requires k <= |Moves(t, names)| && Run(w, Moves(t, names)[..k], w') && Increasing(names, TextLess)
    ensures Carried(w, w', t.sourceId, t.destinationId, moved)
    ensures moved != [] <==> HasRename(Moves(t, names)[..k])
  {
    if names == [] {
      moved := [];
    } else {
      var front, last := names[..|names| - 1], names[|names| - 1];
      var done := Moves(t, front);
      if k <= |done| {
        assert Moves(t, names)[..k] == done[..k];
        moved := MovesPrefix(t, front, k, w, w');
      } else {
        moved := LastMovePrefix(t, names, k, w, w');
      }
    }
  }

  lemma LastMovePrefix(t: Transfer, names: seq<string>, k: nat, w: World, w': World) returns (moved: seq<string>)
    requires names != [] && |Moves(t, names[..|names| - 1])| < k <= |Moves(t, names)|
    requires Run(w, Moves(t, names)[..k], w') && Increasing(names, TextLess)
    ensures Carried(w, w', t.sourceId, t.destinationId, moved)
    ensures moved != [] <==> HasRename(Moves(t, names)[..k])
  {
    var front, last := names[..|names| - 1], names[|names| - 1];
    var done, part := Moves(t, front), MoveOne(t, last)[..k - |Moves(t, front)|];
    assert Moves(t, names)[..k] == done + part;
    RenameInParts(done, part);
    if front != [] { MovesRename(t, front); }
    var m := RunSplits(w, done, part, w');
    MovesCarry(t, front, w, m);
    MovePrefix(t, last, k - |done|, m, w');
    if k - |done| <= 3 {
      moved := front;
    } else {
      moved := front + [last];
      RenameCarries(t, last, m, w');
      LastIsNew(names);
      CarryOne(w, m, w', t.sourceId, t.destinationId, front, last);
    }
  }

  lemma LastIsNew(names: seq<string>)
    requires names != [] && Increasing(names, TextLess)
    ensures names[|names| - 1] !in names[..|names| - 1]
  {
    TextOrder();
    var front, last := names[..|names| - 1], names[|names| - 1];
    forall i | 0 <= i < |front| ensures front[i] != last {
      assert TextLess(names[i], last);
    }
  }

  /** After the moves only the emptied source directory is taken away. */
  lemma AfterMovesKeep(t: Transfer, leaf: string, k: nat, w: World, w': World)
    requires t.source == t.root + [leaf] && t.rootId != t.destinationId
    requires k <= |AfterMoves(t)| && Run(w, AfterMoves(t)[..k], w')
    ensures SameIn(w, w', t.destinationId) && !HasRename(AfterMoves(t)[..k])
  {
    var all := AfterMoves(t);
    if k <= 4 {
      LooksChangeNothing(all[..k], w, w');
    } else {
      RemovalKeeps(t, leaf, all[5..k], w, w') by {
        assert all[..k] == all[..4] + ([all[4]] + all[5..k]);
        assert all[..4] == Closing(t)[..4] && all[4] == RemovedEmpty(t.source);
      }
    }
  }

  lemma RemovalKeeps(t: Transfer, leaf: string, rest: seq<Event>, w: World, w': World)
    requires t.source == t.root + [leaf] && t.rootId != t.destinationId && Looks(rest)
    requires Run(w, Closing(t)[..4] + ([RemovedEmpty(t.source)] + rest), w')
    ensures SameIn(w, w', t.destinationId)
  {
    var looks, remove := Closing(t)[..4], RemovedEmpty(t.source);
    var m := RunSplits(w, looks, [remove] + rest, w');
    var u := RunSplits(m, [remove], rest, w');
    LooksChangeNothing(looks, w, m);
    LooksChangeNothing(rest, u, w');
    RunOne(m, remove, u);
    assert looks == [looks[0]] + ([looks[1]] + looks[2..]);
    var a := RunSplits(w, [looks[0]], [looks[1]] + looks[2..], m);
    var b := RunSplits(a, [looks[1]], looks[2..], m);
    RunOne(w, looks[0], a);
    RunOne(a, looks[1], b);
    assert t.source[..|t.source| - 1] == t.root;
  }

  /** However far the step got, the destination has received some of the names, and it has received
      some exactly when an entry was renamed. */
  lemma PrefixReceived(t: Transfer, leaf: string, names: seq<string>, k: nat, w: World, w': World)
    returns (moved: seq<string>)
    requires t.source == t.root + [leaf] && t.rootId != t.destinationId && Increasing(names, TextLess)
    requires k <= |InitScript(t, names)| && Run(w, InitScript(t, names)[..k], w')
    ensures Received(w, w', t.sourceId, t.destinationId, moved)
    ensures moved != [] <==> HasRename(InitScript(t, names)[..k])
  {
    InitScriptParts(t, names);
    var a, b, c := BeforeMoves(t, names), Moves(t, names), AfterMoves(t);
    PrefixOfThree(a, b, c, k);
    if k <= |a| {
      LooksChangeNothing(a[..k], w, w');
      moved := [];
    } else if k <= |a| + |b| {
      moved := SomeMoved(t, names, k - |a|, w, w');
    } else {
      moved := AllMovedAndMore(t, leaf, names, k - |a| - |b|, w, w');
    }
  }

  lemma PrefixOfThree(a: seq<Event>, b: seq<Event>, c: seq<Event>, k: nat)
    requires k <= |a + (b + c)|
    ensures k <= |a| ==> (a + (b + c))[..k] == a[..k]
    ensures |a| < k <= |a| + |b| ==> (a + (b + c))[..k] == a + b[..k - |a|]
    ensures |a| + |b| < k ==> (a + (b + c))[..k] == a + (b + c[..k - |a| - |b|])
  {
  }

  lemma SomeMoved(t: Transfer, names: seq<string>, k: nat, w: World, w': World) returns (moved: seq<string>)
    requires Increasing(names, TextLess) && k <= |Moves(t, names)|
    requires Run(w, BeforeMoves(t, names) + Moves(t, names)[..k], w')
    ensures Received(w, w', t.sourceId, t.destinationId, moved)
    ensures moved != [] <==> HasRename(BeforeMoves(t, names) + Moves(t, names)[..k])
  {
    var a, part := BeforeMoves(t, names), Moves(t, names)[..k];
    var m := RunSplits(w, a, part, w');
    LooksChangeNothing(a, w, m);
    moved := MovesPrefix(t, names, k, m, w');
    RenameInParts(a, part);
  }

  lemma AllMovedAndMore(t: Transfer, leaf: string, names: seq<string>, k: nat, w: World, w': World)
    returns (moved: seq<string>)
    requires t.source == t.root + [leaf] && t.rootId != t.destinationId && Increasing(names, TextLess)
    requires k <= |AfterMoves(t)| && Run(w, BeforeMoves(t, names) + (Moves(t, names) + AfterMoves(t)[..k]), w')
    ensures Received(w, w', t.sourceId, t.destinationId, moved)
    ensures moved != [] <==> HasRename(BeforeMoves(t, names) + (Moves(t, names) + AfterMoves(t)[..k]))
  {
    var a, b, part := BeforeMoves(t, names), Moves(t, names), AfterMoves(t)[..k];
    var m := RunSplits(w, a, b + part, w');
    LooksChangeNothing(a, w, m);
    var u := RunSplits(m, b, part, w');
    assert b[..|b|] == b;
    moved := MovesPrefix(t, names, |b|, m, u);
    AfterMovesKeep(t, leaf, k, u, w');
    RenameInParts(a, b + part);
    RenameInParts(b, part);
  }

  // ---- what a failure removes ----

  /** A path beside another. */
  predicate Beside(q: Path, path: Path) {
    q != [] && path != [] && q[..|q| - 1] == path[..|path| - 1]
  }

  /** Directory `d` is not an entry of itself or of `s`. */
  ghost predicate NotInside(w: World, s: Id, d: Id) {
    forall k | k in w.entries && (k.0 == d || k.0 == s) :: w.entries[k] != d
  }

  /** Moving a directory aside leaves what it holds alone. */
  lemma AsideKeeps(path: Path, q: Path, d: Id, w: World, w': World)
    requires Beside(q, path) && DirectoryAt(w, path, d) && Sound(Step(w, Renamed(path, q), w'))
    requires forall k | k in w.entries && k.0 == d :: w.entries[k] != d
    ensures SameIn(w, w', d)
  {
  }

  /** Alone, after a failed step whose cleanup of the receiving directory completed: what was
      removed, in the world `m` just before, is that directory; and it held an entry that came from
      the source exactly when the script had renamed one. */
  lemma FailureRemovesTransferred(t: Transfer, leaf: string, names: seq<string>, f: Failure, w: World, w': World)
    returns (m: World, after: World)
    requires t.source == t.root + [leaf] && t.rootId != t.destinationId && Increasing(names, TextLess)
    requires Possible(t, names, f) && f.j == 5 && Beside(f.q, t.destination)
    requires Run(w, FailureLog(t, names, f), w') && NotInside(w, t.sourceId, t.destinationId)
    ensures Sound(Step(m, RemovedTree(f.q), after)) && DirectoryAt(m, f.q, t.destinationId)
    ensures (exists n :: Transferred(w, m, t.sourceId, t.destinationId, n)) <==> HasRename(InitScript(t, names)[..f.k])
  {
    var prefix, cleanup, rest := InitScript(t, names)[..f.k], Cleanup(t.destination, t.destinationId, f.q),
        Cleanup(t.root, t.rootId, f.q')[..f.j'];
    assert FailureLog(t, names, f) == prefix + cleanup + rest;
    after := RunSplits(w, prefix + cleanup, rest, w');
    var w1 := RunSplits(w, prefix, cleanup, after);
    var moved := PrefixReceived(t, leaf, names, f.k, w, w1);
    m := AloneRemovesOwn(t.destination, t.destinationId, f.q, w1, after);
    AsideKeeps(t.destination, f.q, t.destinationId, w1, m);
    ReceivedIsHeld(w, w1, m, t.sourceId, t.destinationId, moved);
  }

  lemma ReceivedIsHeld(w: World, w1: World, m: World, s: Id, d: Id, moved: seq<string>)
    requires Received(w, w1, s, d, moved) && SameIn(w1, m, d)
    ensures (exists n :: Transferred(w, m, s, d, n)) <==> moved != []
  {
    if moved != [] {
      assert moved[0] in moved;
      assert Transferred(w, m, s, d, moved[0]);
    }
    if n :| Transferred(w, m, s, d, n) { assert n in moved; }
  }

  // ---- the smallest case ----

  lemma ResolveChild(w: World, path: Path, name: string)
    requires Resolve(w, path).Some?
    ensures var key := (Resolve(w, path).value, name);
            Resolve(w, path + [name]) == if key in w.entries then Some(w.entries[key]) else None
    ensures Resolve(w, path).value in w.directories ==> Slot(w, path + [name]) == Some((Resolve(w, path).value, name))
  {
    assert (path + [name])[..|path|] == path;
  }

  lemma {:induction false} LooksRun(events: seq<Event>, w: World)
    requires Looks(events) && forall i | 0 <= i < |events| :: Sound(Step(w, events[i], w))
    ensures Run(w, events, w)
  {
    if events != [] {
      LooksRun(events[1..], w);
      assert Sound(Step(w, events[0], w)) && Run(w, events[1..], w);
    }
  }

  /** A work tree `h` with metadata `g` of two entries, and a receiving directory `r` that already
      has a `b`. */
  const TWO: Transfer := Transfer(["h"], 1, ["h", "g"], 2, ["r"], 3)
  const BEFORE := World({0, 1, 2, 3}, map[(0, "h") := 1, (1, "g") := 2, (0, "r") := 3, (2, "a") := 4, (2, "b") := 5,
      (3, "b") := 6])
  const MOVED := BEFORE.(entries := (BEFORE.entries - {(2, "a")})[(3, "a") := 4])
  const ASIDE := MOVED.(entries := (MOVED.entries - {(0, "r")})[(0, "q") := 3])
  const CLEANED := World({0, 1, 2}, ASIDE.entries - {(0, "q"), (3, "a"), (3, "b")})

  /** Directories 1, 2 and 3 are where the transfer expects them. */
  lemma Places(w: World)
    requires w.directories == {0, 1, 2, 3} && (0, "h") in w.entries && w.entries[(0, "h")] == 1
    requires (1, "g") in w.entries && w.entries[(1, "g")] == 2 && (0, "r") in w.entries && w.entries[(0, "r")] == 3
    ensures DirectoryAt(w, ["h"], 1) && DirectoryAt(w, ["h", "g"], 2) && DirectoryAt(w, ["r"], 3)
    ensures forall n :: Slot(w, ["h", "g"] + [n]) == Some((2, n)) && Slot(w, ["r"] + [n]) == Some((3, n))
    ensures Slot(w, ["r"]) == Some((0, "r")) && Slot(w, ["q"]) == Some((0, "q"))
  {
    ResolveChild(w, [], "h");
    ResolveChild(w, [], "r");
    ResolveChild(w, [], "q");
    ResolveChild(w, ["h"], "g");
    assert [] + ["h"] == ["h"] && [] + ["r"] == ["r"] && [] + ["q"] == ["q"] && ["h"] + ["g"] == ["h", "g"];
    forall n ensures Slot(w, ["h", "g"] + [n]) == Some((2, n)) && Slot(w, ["r"] + [n]) == Some((3, n)) {
      ResolveChild(w, ["h", "g"], n);
      ResolveChild(w, ["r"], n);
    }
  }

  function RenameOf(t: Transfer, n: string): Event {
    Renamed(t.source + [n], t.destination + [n])
  }

  /** The script of two names up to the second rename. */
  lemma TwoNames(t: Transfer, x: string, y: string)
    ensures var script := InitScript(t, [x, y]);
            && |script| > 19 && script[19] == RenameOf(t, y)
            && script[..19] == (BeforeMoves(t, [x, y]) + Checks(t)) + ([RenameOf(t, x)] + (Checks(t) + Checks(t)))
  {
    InitScriptParts(t, [x, y]);
    assert [x, y][..1] == [x] && [x][..0] == [];
    assert Moves(t, [x]) == MoveOne(t, x);
    assert Moves(t, [x, y]) == MoveOne(t, x) + MoveOne(t, y);
    var a, m := BeforeMoves(t, [x, y]), Moves(t, [x, y]);
    PrefixOfThree(a, m, AfterMoves(t), 19);
    assert m[..10] == Checks(t) + ([RenameOf(t, x)] + (Checks(t) + Checks(t)));
    assert InitScript(t, [x, y])[19] == m[10] == MoveOne(t, y)[3];
  }

  lemma ChecksRun(t: Transfer, w: World)
    requires DirectoryAt(w, t.root, t.rootId) && DirectoryAt(w, t.source, t.sourceId)
             && DirectoryAt(w, t.destination, t.destinationId)
    ensures Run(w, Checks(t), w) && Run(w, Roots(t), w)
  {
    LooksRun(Checks(t), w);
    LooksRun(Roots(t), w);
  }

  lemma BeforeMovesRun(t: Transfer, names: seq<string>, w: World)
    requires DirectoryAt(w, t.root, t.rootId) && DirectoryAt(w, t.source, t.sourceId)
             && DirectoryAt(w, t.destination, t.destinationId)
    requires Elements(names) == Listing(w, t.sourceId)
    ensures Run(w, BeforeMoves(t, names), w)
  {
    var list := [Listed(t.source, Elements(names))];
    ChecksRun(t, w);
    LooksRun(list, w);
    RunJoins(w, Checks(t), w, list, w);
    RunJoins(w, Checks(t) + list, w, Checks(t), w);
    RunJoins(w, Roots(t), w, Opening(t, names), w);
  }

  lemma TwoEntries()
    ensures Elements(["a", "b"]) == Listing(BEFORE, 2) && Increasing(["a", "b"], TextLess)
  {
    forall n ensures n in Listing(BEFORE, 2) <==> n in ["a", "b"] {
      if n in ["a", "b"] { assert (2, n) in BEFORE.entries; }
    }
  }

  lemma FirstMoveRuns(t: Transfer, x: string, y: string, w: World, w': World)
    requires DirectoryAt(w, t.root, t.rootId) && DirectoryAt(w, t.source, t.sourceId)
             && DirectoryAt(w, t.destination, t.destinationId)
    requires DirectoryAt(w', t.root, t.rootId) && DirectoryAt(w', t.source, t.sourceId)
             && DirectoryAt(w', t.destination, t.destinationId)
    requires Elements([x, y]) == Listing(w, t.sourceId) && Run(w, [RenameOf(t, x)], w')
    ensures Run(w, InitScript(t, [x, y])[..19], w')
  {
    var before, after := BeforeMoves(t, [x, y]) + Checks(t), Checks(t) + Checks(t);
    TwoNames(t, x, y);
    BeforeMovesRun(t, [x, y], w);
    ChecksRun(t, w);
    ChecksRun(t, w');
    RunJoins(w, BeforeMoves(t, [x, y]), w, Checks(t), w);
    RunJoins(w', Checks(t), w', Checks(t), w');
    RunJoins(w, [RenameOf(t, x)], w', after, w');
    RunJoins(w, before, w, [RenameOf(t, x)] + after, w');
  }

  /** Everything up to the rename of `b`, which is refused. */
  lemma SecondRenameIsRefused()
    ensures Run(BEFORE, InitScript(TWO, ["a", "b"])[..19], MOVED)
    ensures !CanRename(MOVED, TWO.source + ["b"], TWO.destination + ["b"])
  {
    TwoEntries();
    Places(BEFORE);
    Places(MOVED);
    MoveOfA();
    FirstMoveRuns(TWO, "a", "b", BEFORE, MOVED);
  }

  lemma MoveOfA()
    ensures Run(BEFORE, [RenameOf(TWO, "a")], MOVED)
  {
    Places(BEFORE);
    assert BEFORE.entries[(2, "a")] == 4;
    RunOne(BEFORE, RenameOf(TWO, "a"), MOVED);
  }

  lemma CleanupRuns(path: Path, d: Id, q: Path, w: World, m: World, w': World)
    requires DirectoryAt(w, path, d) && Sound(Step(w, Renamed(path, q), m)) && DirectoryAt(m, q, d)
    ensures Run(w, Cleanup(path, d, q), w')
  {
    var here, aside, check, remove := [Verified(path, d)], [Renamed(path, q)], [Verified(q, d)], [RemovedTree(q)];
    RunOne(w, here[0], w);
    RunOne(w, aside[0], m);
    RunOne(m, check[0], m);
    RunOne(m, remove[0], w');
    RunJoins(m, check, m, remove, w');
    RunJoins(m, check, m, check + remove, w');
    RunJoins(w, aside, m, check + (check + remove), w');
    RunJoins(w, here, w, aside + (check + (check + remove)), w');
    assert Cleanup(path, d, q) == here + (aside + (check + (check + remove)));
  }

  /** Renaming `r` to `q`, wherever there is no `q`. */
  lemma RenameOfR(w: World)
    requires 0 in w.directories && 3 in w.directories && (0, "r") in w.entries && w.entries[(0, "r")] == 3
             && (0, "q") !in w.entries
    ensures var m := w.(entries := (w.entries - {(0, "r")})[(0, "q") := 3]);
            DirectoryAt(w, ["r"], 3) && Sound(Step(w, Renamed(["r"], ["q"]), m)) && DirectoryAt(m, ["q"], 3)
  {
    var m := w.(entries := (w.entries - {(0, "r")})[(0, "q") := 3]);
    ResolveChild(w, [], "r");
    ResolveChild(w, [], "q");
    ResolveChild(m, [], "q");
    assert [] + ["r"] == ["r"] && [] + ["q"] == ["q"];
  }

  /** The cleanup of the receiving directory. */
  lemma CleanupOfTwo()
    ensures Run(MOVED, Cleanup(["r"], 3, ["q"]), CLEANED) && DirectoryAt(ASIDE, ["q"], 3)
  {
    RenameOfR(MOVED);
    CleanupRuns(["r"], 3, ["q"], MOVED, ASIDE, CLEANED);
  }

  /** Alone: `a` moves, the rename of `b` is refused, which flags the source; the receiving directory
      is then removed, and with it `a`, which the source no longer has. */
  lemma FirstEntryIsLost() returns (f: Failure)
    ensures Possible(TWO, ["a", "b"], f) && InitScript(TWO, ["a", "b"])[f.k] == RenameOf(TWO, "b") && f.j == 5
            && f.j' == 0
    ensures Run(BEFORE, FailureLog(TWO, ["a", "b"], f), CLEANED)
    ensures !CanRename(MOVED, TWO.source + ["b"], TWO.destination + ["b"])
    ensures Transferred(BEFORE, ASIDE, 2, 3, "a") && Sound(Step(ASIDE, RemovedTree(f.q), CLEANED))
            && DirectoryAt(ASIDE, f.q, 3)
    ensures (2, "a") !in CLEANED.entries && (3, "a") !in CLEANED.entries
  {
    f := Failure(19, ["q"], 5, ["z"], 0);
    TwoNames(TWO, "a", "b");
    SecondRenameIsRefused();
    CleanupOfTwo();
    RunJoins(BEFORE, InitScript(TWO, ["a", "b"])[..19], MOVED, Cleanup(["r"], 3, ["q"]), CLEANED);
    assert FailureLog(TWO, ["a", "b"], f) == InitScript(TWO, ["a", "b"])[..19] + Cleanup(["r"], 3, ["q"]);
  }
}
