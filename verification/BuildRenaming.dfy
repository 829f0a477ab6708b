/** What the build identity makes of a renamed file (crates/jig/build_identity.rs). */
module BuildRenaming {
  import opened Wrappers
  import opened Orders
  import opened PathText
  import opened BuildIdentity

  // ---- replacing an element of a sorted list ----

  lemma JoinIncreases<T>(a: seq<T>, b: seq<T>, less: (T, T) -> bool)
    requires Increasing(a, less) && Increasing(b, less) && forall x, y | x in a && y in b :: less(x, y)
    ensures Increasing(a + b, less)
  {
  }

  lemma SplitBelow<T(!new)>(s: seq<T>, q: T, less: (T, T) -> bool) returns (n: nat)
    requires StrictOrder(less) && Increasing(s, less) && q !in s
    ensures n <= |s| && (forall r | r in s[..n] :: less(r, q)) && (forall r | r in s[n..] :: less(q, r))
  {
    n := 0;
    while n < |s| && less(s[n], q)
      invariant 0 <= n <= |s| && forall r | r in s[..n] :: less(r, q)
    {
      assert s[..n + 1] == s[..n] + [s[n]];
      n := n + 1;
    }
    forall r | r in s[n..] ensures less(q, r) {
      var k :| n <= k < |s| && s[k] == r;
      assert s[n] in s;
    }
  }

  /** The elements of a sorted list in order: a part below `p`, `p`, and two parts above it. */
  lemma PartsInOrder<T(!new)>(a: seq<T>, p: T, b: seq<T>, c: seq<T>, less: (T, T) -> bool)
    requires Increasing(a + ([p] + b) + c, less)
    ensures Increasing(a, less) && Increasing(b, less) && Increasing(c, less)
    ensures (forall r | r in a :: less(r, p)) && (forall r | r in b :: less(p, r)) && (forall r | r in c :: less(p, r))
  {
    var s := a + ([p] + b) + c;
    assert forall k | 0 <= k < |a| :: a[k] == s[k];
    assert p == s[|a|];
    assert forall k | 0 <= k < |b| :: b[k] == s[|a| + 1 + k];
    assert forall k | 0 <= k < |c| :: c[k] == s[|a| + 1 + |b| + k];
  }

  /** Replacing `p` by a later `q` moves the elements between them, `b`, to the front of it. */
  lemma Replaced<T(!new)>(s: seq<T>, p: T, q: T, less: (T, T) -> bool) returns (a: seq<T>, b: seq<T>, c: seq<T>)
    requires StrictOrder(less) && Increasing(s, less) && p in s && q !in s && less(p, q)
    ensures s == a + ([p] + b) + c && Increasing(a + (b + [q]) + c, less)
    ensures forall r :: r in b <==> r in s && less(p, r) && less(r, q)
    ensures forall r :: r in a + (b + [q]) + c <==> r == q || (r in s && r != p)
  {
    var i :| 0 <= i < |s| && s[i] == p;
    var tail := s[i + 1..];
    var n := SplitBelow(tail, q, less);
    a, b, c := s[..i], tail[..n], tail[n..];
    assert s == a + ([p] + b) + c;
    PartsInOrder(a, p, b, c, less);
    PutAfter(a, p, b, q, c, less);
    PartsMember(a, p, b, q, c, less);
  }

  lemma PutAfter<T(!new)>(a: seq<T>, p: T, b: seq<T>, q: T, c: seq<T>, less: (T, T) -> bool)
    requires StrictOrder(less) && less(p, q) && Increasing(a, less) && Increasing(b, less) && Increasing(c, less)
    requires (forall r | r in a :: less(r, p)) && (forall r | r in b :: less(p, r) && less(r, q))
    requires forall r | r in c :: less(q, r)
    ensures Increasing(a + (b + [q]) + c, less)
  {
    JoinIncreases(b, [q], less);
    JoinIncreases(a, b + [q], less);
    JoinIncreases(a + (b + [q]), c, less);
  }

  lemma PartsMember<T(!new)>(a: seq<T>, p: T, b: seq<T>, q: T, c: seq<T>, less: (T, T) -> bool)
    requires StrictOrder(less) && less(p, q)
    requires (forall r | r in a :: less(r, p)) && (forall r | r in b :: less(p, r) && less(r, q))
    requires forall r | r in c :: less(q, r)
    ensures forall r :: r in b <==> r in a + ([p] + b) + c && less(p, r) && less(r, q)
    ensures forall r :: r in a + (b + [q]) + c <==> r == q || (r in a + ([p] + b) + c && r != p)
  {
  }

  /** Moving an element past a list and changing it shows, unless all of it is the same. */
  lemma RotationShows<T>(x: T, b: seq<T>, y: T)
    ensures [x] + b == b + [y] <==> x == y && forall z | z in b :: z == x
  {
    if [x] + b == b + [y] {
      AllAlike(x, b, y, |b|);
    } else if x == y && forall z | z in b :: z == x {
      var k :| 0 <= k < |b| + 1 && ([x] + b)[k] != (b + [y])[k];
      assert k < |b| ==> b[k] in b;
      assert k > 0 ==> b[k - 1] in b;
    }
  }

  lemma {:induction false} AllAlike<T>(x: T, b: seq<T>, y: T, n: nat)
    requires [x] + b == b + [y] && n <= |b|
    ensures (forall k | 0 <= k < n :: b[k] == x) && ([x] + b)[n] == x
  {
    if n > 0 {
      AllAlike(x, b, y, n - 1);
      assert ([x] + b)[n - 1] == (b + [y])[n - 1] == b[n - 1];
    }
  }

  lemma CancelBoth<T>(a: seq<T>, u: seq<T>, v: seq<T>, c: seq<T>)
    requires |u| == |v|
    ensures a + u + c == a + v + c <==> u == v
  {
    if a + u + c == a + v + c {
      assert u == (a + u + c)[|a|..|a| + |u|] && v == (a + v + c)[|a|..|a| + |v|];
    }
  }

  // ---- renaming one file ----

  /** The file at `p` is at `q` instead; all else is as it was. */
  ghost predicate Renamed(at: Contents, p: Path, at': Contents, q: Path) {
    && at(p).Some? && at(q).None? && p != q
    && forall r :: at'(r) == if r == p then None else if r == q then at(p) else at(r)
  }

  ghost predicate Between(p: Path, q: Path, r: Path) {
    (PathLess(p, r) && PathLess(r, q)) || (PathLess(q, r) && PathLess(r, p))
  }

  /** The two paths have one label, and so has, with the same contents, every file between them. */
  ghost predicate Indistinct(lossy: Lossy, at: Contents, p: Path, q: Path) {
    && lossy(JoinSlash(p)) == lossy(JoinSlash(q))
    && forall r | at(r).Some? && Between(p, q, r) :: lossy(JoinSlash(r)) == lossy(JoinSlash(p)) && at(r) == at(p)
  }

  lemma {:induction false} LabelledParts(lossy: Lossy, at: Contents, a: seq<Path>, b: seq<Path>)
    requires (forall r | r in a :: at(r).Some?) && (forall r | r in b :: at(r).Some?)
    ensures forall r | r in a + b :: at(r).Some?
    ensures Labelled(lossy, at, a + b) == Labelled(lossy, at, a) + Labelled(lossy, at, b)
  {
    var left, right, both := Labelled(lossy, at, a), Labelled(lossy, at, b), Labelled(lossy, at, a + b);
    forall k | 0 <= k < |both| ensures both[k] == (left + right)[k] {
      if k >= |a| { assert (a + b)[k] == b[k - |a|]; }
    }
  }

  lemma LabelledAlike(lossy: Lossy, at: Contents, at': Contents, s: seq<Path>)
    requires forall r | r in s :: at(r).Some? && at'(r) == at(r)
    ensures Labelled(lossy, at, s) == Labelled(lossy, at', s)
  {
    assert forall k | 0 <= k < |s| :: s[k] in s;
  }

  ghost predicate Covered(at: Contents, s: seq<Path>) {
    forall r | r in s :: at(r).Some?
  }

  /** All files in the list have this label and these contents. */
  lemma AlikeLabels(lossy: Lossy, at: Contents, s: seq<Path>, x: (string, string))
    requires Covered(at, s)
    ensures (forall z | z in Labelled(lossy, at, s) :: z == x) <==>
            forall r | r in s :: lossy(JoinSlash(r)) == x.0 && at(r) == Some(x.1)
  {
    var labels := Labelled(lossy, at, s);
    if forall z | z in labels :: z == x {
      forall r | r in s ensures lossy(JoinSlash(r)) == x.0 && at(r) == Some(x.1) {
        var k :| 0 <= k < |s| && s[k] == r;
        assert labels[k] in labels;
      }
    }
    if forall r | r in s :: lossy(JoinSlash(r)) == x.0 && at(r) == Some(x.1) {
      forall z | z in labels ensures z == x {
        var k :| 0 <= k < |labels| && labels[k] == z;
        assert s[k] in s;
      }
    }
  }

  lemma LabelledOfThree(lossy: Lossy, at: Contents, a: seq<Path>, b: seq<Path>, c: seq<Path>)
    requires Covered(at, a) && Covered(at, b) && Covered(at, c)
    ensures Covered(at, a + b + c)
    ensures Labelled(lossy, at, a + b + c) ==
            Labelled(lossy, at, a) + Labelled(lossy, at, b) + Labelled(lossy, at, c)
  {
    LabelledParts(lossy, at, a, b);
    LabelledParts(lossy, at, a + b, c);
  }

  lemma RotatedLabels(lossy: Lossy, at: Contents, p: Path, at': Contents, q: Path, b: seq<Path>)
    requires at(p).Some? && at'(q) == at(p) && forall r | r in b :: at(r).Some? && at'(r) == at(r)
    ensures Covered(at, [p] + b) && Covered(at', b + [q])
    ensures Labelled(lossy, at, [p] + b) == Labelled(lossy, at', b + [q]) <==>
            && lossy(JoinSlash(p)) == lossy(JoinSlash(q))
            && forall r | r in b :: lossy(JoinSlash(r)) == lossy(JoinSlash(p)) && at(r) == at(p)
  {
    var x, y := (lossy(JoinSlash(p)), at(p).value), (lossy(JoinSlash(q)), at(p).value);
    LabelledParts(lossy, at, [p], b);
    LabelledParts(lossy, at', b, [q]);
    LabelledAlike(lossy, at, at', b);
    assert Labelled(lossy, at, [p]) == [x] && Labelled(lossy, at', [q]) == [y];
    RotationShows(x, Labelled(lossy, at, b), y);
    AlikeLabels(lossy, at, b, x);
  }

  /** The same with files before and after. */
  lemma SurroundedLabels(lossy: Lossy, at: Contents, p: Path, at': Contents, q: Path,
                         a: seq<Path>, b: seq<Path>, c: seq<Path>)
    requires at(p).Some? && at'(q) == at(p)
    requires forall r | r in a || r in b || r in c :: at(r).Some? && at'(r) == at(r)
    ensures Covered(at, a + ([p] + b) + c) && Covered(at', a + (b + [q]) + c)
    ensures Labelled(lossy, at, a + ([p] + b) + c) == Labelled(lossy, at', a + (b + [q]) + c) <==>
            && lossy(JoinSlash(p)) == lossy(JoinSlash(q))
            && forall r | r in b :: lossy(JoinSlash(r)) == lossy(JoinSlash(p)) && at(r) == at(p)
  {
    RotatedLabels(lossy, at, p, at', q, b);
    LabelledOfThree(lossy, at, a, [p] + b, c);
    LabelledOfThree(lossy, at', a, b + [q], c);
    LabelledAlike(lossy, at, at', a);
    LabelledAlike(lossy, at, at', c);
    CancelBoth(Labelled(lossy, at, a), Labelled(lossy, at, [p] + b), Labelled(lossy, at', b + [q]),
               Labelled(lossy, at, c));
  }

  /** The lists of covered paths before and after a renaming to a later path. */
  lemma RenamedLists(at: Contents, p: Path, at': Contents, q: Path, paths: seq<Path>, paths': seq<Path>)
    returns (a: seq<Path>, b: seq<Path>, c: seq<Path>)
    requires Renamed(at, p, at', q) && PathLess(p, q) && InputList(at, paths) && InputList(at', paths')
    ensures paths == a + ([p] + b) + c && paths' == a + (b + [q]) + c
    ensures forall r :: r in b <==> at(r).Some? && PathLess(p, r) && PathLess(r, q)
    ensures forall r | r in a || r in b || r in c :: at(r).Some? && at'(r) == at(r)
  {
    PathOrder();
    assert p in paths && q !in paths;
    a, b, c := Replaced(paths, p, q, PathLess);
    var replaced := a + (b + [q]) + c;
    forall r ensures r in replaced <==> at'(r).Some? {
      assert r in paths <==> at(r).Some?;
    }
    OneInputList(at', paths', replaced);
    assert q !in a && q !in b && q !in c;
    forall r | r in a || r in b || r in c ensures at(r).Some? && at'(r) == at(r) {
      assert r in paths && r in replaced;
    }
  }

  /** A renaming to a later path keeps the labelled contents exactly when it is indistinct. */
  lemma RenamedLater(lossy: Lossy, at: Contents, p: Path, at': Contents, q: Path, paths: seq<Path>, paths': seq<Path>)
    requires Renamed(at, p, at', q) && PathLess(p, q) && InputList(at, paths) && InputList(at', paths')
    ensures Labelled(lossy, at, paths) == Labelled(lossy, at', paths') <==> Indistinct(lossy, at, p, q)
  {
    var a, b, c := RenamedLists(at, p, at', q, paths, paths');
    SurroundedLabels(lossy, at, p, at', q, a, b, c);
    PathOrder();
    forall r ensures at(r).Some? && Between(p, q, r) <==> r in b {
      assert !(PathLess(q, r) && PathLess(r, p));
    }
  }

  /** Renaming back is a renaming, and as distinct. */
  lemma RenamedBack(lossy: Lossy, at: Contents, p: Path, at': Contents, q: Path)
    requires Renamed(at, p, at', q)
    ensures Renamed(at', q, at, p) && (Indistinct(lossy, at', q, p) <==> Indistinct(lossy, at, p, q))
  {
    PathOrder();
    forall r ensures at'(r).Some? && Between(q, p, r) <==> at(r).Some? && Between(p, q, r) {
    }
    assert forall r | Between(p, q, r) :: at'(r) == at(r);
  }

  /** Any renaming keeps the labelled contents exactly when it is indistinct. */
  lemma RenamedLabels(lossy: Lossy, at: Contents, p: Path, at': Contents, q: Path, paths: seq<Path>, paths': seq<Path>)
    requires Renamed(at, p, at', q) && InputList(at, paths) && InputList(at', paths')
    ensures Labelled(lossy, at, paths) == Labelled(lossy, at', paths') <==> Indistinct(lossy, at, p, q)
  {
    PathOrder();
    if PathLess(p, q) {
      RenamedLater(lossy, at, p, at', q, paths, paths');
    } else {
      RenamedBack(lossy, at, p, at', q);
      RenamedLater(lossy, at', q, at, p, paths', paths);
    }
  }

  /** Exactly when a build does not notice that a file was renamed. */
  lemma RenameIsInvisible(lossy: Lossy, at: Contents, p: Path, at': Contents, q: Path,
                          c: seq<(string, string)>, s: string, s': string)
    requires Renamed(at, p, at', q) && Small(lossy, at, c) && Small(lossy, at', c)
    requires IsIdentity(lossy, at, c, s) && IsIdentity(lossy, at', c, s')
    ensures s == s' <==> Indistinct(lossy, at, p, q)
  {
    IdentityOnLabels(lossy, at, c, s, at', c, s');
    var paths :| InputList(at, paths) && s == Stream(Canonical(c, PairLess), Labelled(lossy, at, paths));
    var paths' :| InputList(at', paths') && s' == Stream(Canonical(c, PairLess), Labelled(lossy, at', paths'));
    RenamedLabels(lossy, at, p, at', q, paths, paths');
  }

  /** An indistinct renaming goes unnoticed, whatever the sizes. */
  lemma IndistinctStreams(lossy: Lossy, at: Contents, p: Path, at': Contents, q: Path,
                          c: seq<(string, string)>, s: string, s': string)
    requires Renamed(at, p, at', q) && Indistinct(lossy, at, p, q)
    requires IsIdentity(lossy, at, c, s) && IsIdentity(lossy, at', c, s')
    ensures s == s'
  {
    var paths :| InputList(at, paths) && s == Stream(Canonical(c, PairLess), Labelled(lossy, at, paths));
    var paths' :| InputList(at', paths') && s' == Stream(Canonical(c, PairLess), Labelled(lossy, at', paths'));
    RenamedLabels(lossy, at, p, at', q, paths, paths');
  }

  // ---- packages with one source file ----

  /** A package as it is published, with the source file `name`. */
  function Package(manifest: string, script: string, identity: string, name: string, contents: string): Node {
    Directory([Entry("Cargo.toml", File(manifest)), Entry("build.rs", File(script)),
               Entry("build_identity.rs", File(identity)), Entry("src", Directory([Entry(name, File(contents))]))])
  }

  lemma ChildOfFour(a: Entry, b: Entry, c: Entry, d: Entry, name: string)
    ensures Child([a, b, c, d], name) ==
            if a.name == name then Some(a.node) else if b.name == name then Some(b.node)
            else if c.name == name then Some(c.node) else if d.name == name then Some(d.node) else None
  {
    assert [a, b, c, d][1..] == [b, c, d] && [b, c, d][1..] == [c, d] && [c, d][1..] == [d] && [d][1..] == [];
    assert Child([c, d], name) == if c.name == name then Some(c.node) else Child([d], name);
  }

  lemma NamesDiffer()
    ensures "Cargo.toml" != "build.rs" && "Cargo.toml" != "build_identity.rs" && "build.rs" != "build_identity.rs"
    ensures "Cargo.lock" != "Cargo.toml" && "Cargo.lock" != "build.rs" && "Cargo.lock" != "build_identity.rs"
    ensures "src" != "Cargo.toml" && "src" != "build.rs" && "src" != "build_identity.rs" && "src" != "Cargo.lock"
  {
    assert "Cargo.toml"[6] == 't' && "Cargo.lock"[6] == 'l';
    assert |"Cargo.toml"| == |"Cargo.lock"| == 10 && |"build.rs"| == 8 && |"build_identity.rs"| == 17 && |"src"| == 3;
  }

  /** What is directly below such a package. */
  lemma PackageEntries(manifest: string, script: string, identity: string, name: string, contents: string)
    ensures var root := Package(manifest, script, identity, name, contents);
            && NodeIn(root, "Cargo.toml") == Some(File(manifest)) && NodeIn(root, "build.rs") == Some(File(script))
            && NodeIn(root, "build_identity.rs") == Some(File(identity)) && NodeIn(root, "Cargo.lock").None?
            && NodeIn(root, "src") == Some(Directory([Entry(name, File(contents))]))
  {
    NamesDiffer();
    var e := Package(manifest, script, identity, name, contents).entries;
    ChildOfFour(e[0], e[1], e[2], e[3], "Cargo.toml");
    ChildOfFour(e[0], e[1], e[2], e[3], "build.rs");
    ChildOfFour(e[0], e[1], e[2], e[3], "build_identity.rs");
    ChildOfFour(e[0], e[1], e[2], e[3], "Cargo.lock");
    ChildOfFour(e[0], e[1], e[2], e[3], "src");
  }

  /** It is a build the code accepts. */
  lemma PackageIsInspectable(manifest: string, script: string, identity: string, name: string, contents: string)
    requires IsName(name)
    ensures var root := Package(manifest, script, identity, name, contents);
            WellFormed(root) && Inspectable(root, false)
  {
    PackageIsWellFormed(manifest, script, identity, name, contents);
    PackageEntries(manifest, script, identity, name, contents);
    assert Plain(Directory([Entry(name, File(contents))]));
  }

  lemma PackageIsWellFormed(manifest: string, script: string, identity: string, name: string, contents: string)
    requires IsName(name)
    ensures WellFormed(Package(manifest, script, identity, name, contents))
  {
    NamesDiffer();
    assert WellFormed(Directory([Entry(name, File(contents))]));
    var e := Package(manifest, script, identity, name, contents).entries;
    FourEntries(e[0], e[1], e[2], e[3]);
  }

  lemma FourEntries(a: Entry, b: Entry, c: Entry, d: Entry)
    requires IsName(a.name) && IsName(b.name) && IsName(c.name) && IsName(d.name)
    requires a.name != b.name && a.name != c.name && a.name != d.name
    requires b.name != c.name && b.name != d.name && c.name != d.name
    requires WellFormed(a.node) && WellFormed(b.node) && WellFormed(c.node) && WellFormed(d.node)
    ensures WellFormed(Directory([a, b, c, d]))
  {
  }

  /** Its inputs: some directly below it, whatever the source file is called, and the source file. */
  lemma PackageInputs(manifest: string, script: string, identity: string, name: string, contents: string, r: Path)
    ensures var at := Inputs(Package(manifest, script, identity, name, contents), false);
            && (|r| != 1 ==> at(r) == if r == ["src", name] then Some(contents) else None)
            && (|r| == 1 ==> at(r) == if r[0] == "Cargo.toml" then Some(manifest)
                                      else if r[0] == "build.rs" then Some(script)
                                      else if r[0] == "build_identity.rs" then Some(identity) else None)
  {
    NamesDiffer();
    PackageEntries(manifest, script, identity, name, contents);
    if |r| == 1 {
      DirectInput(Package(manifest, script, identity, name, contents), r[0]);
      assert r == [r[0]];
    } else if |r| > 1 && r[0] == "src" {
      SourceFile(name, contents, r[1..]);
      assert r == ["src"] + r[1..];
    }
  }

  lemma DirectInput(root: Node, name: string)
    ensures InputAt(root, false, [name]) ==
            if IsFile(NodeIn(root, name))
               && name in ["Cargo.toml", "build.rs", "build_identity.rs", "Cargo.lock", "src"]
            then Some(NodeIn(root, name).value.contents) else None
  {
    var node := NodeIn(root, name);
    assert FileAt(root, [name]) == if node.None? then None else FileAt(node.value, []) by {
      assert [name][1..] == [];
    }
    var names := ["Cargo.toml", "build.rs", "build_identity.rs", "Cargo.lock"];
    assert Required(false) + Optionals(false) == names && Trees(false) == ["src"];
    assert names + ["src"] == ["Cargo.toml", "build.rs", "build_identity.rs", "Cargo.lock", "src"];
    assert BuildIdentity.Named(names, ["src"], [name]) <==> name in names + ["src"];
  }

  lemma SourceFile(name: string, contents: string, path: Path)
    requires path != []
    ensures FileAt(Directory([Entry(name, File(contents))]), path) == if path == [name] then Some(contents) else None
  {
    var entries := [Entry(name, File(contents))];
    assert entries[1..] == [] && Child(entries[1..], path[0]).None?;
    assert path == [path[0]] + path[1..];
    if path[0] == name && path[1..] != [] { assert NodeIn(File(contents), path[1..][0]).None?; }
  }

  lemma PackageIsRenamed(manifest: string, script: string, identity: string, x: string, y: string, contents: string)
    requires x != y
    ensures Renamed(Inputs(Package(manifest, script, identity, x, contents), false), ["src", x],
                    Inputs(Package(manifest, script, identity, y, contents), false), ["src", y])
  {
    var at, at' := Inputs(Package(manifest, script, identity, x, contents), false),
                   Inputs(Package(manifest, script, identity, y, contents), false);
    var p, q := ["src", x], ["src", y];
    assert p[1] != q[1];
    PackageInputs(manifest, script, identity, x, contents, p);
    PackageInputs(manifest, script, identity, x, contents, q);
    forall r ensures at'(r) == if r == p then None else if r == q then at(p) else at(r) {
      PackageInputs(manifest, script, identity, x, contents, r);
      PackageInputs(manifest, script, identity, y, contents, r);
    }
  }

  /** No other input lies between two source files. */
  lemma NothingBetween(manifest: string, script: string, identity: string, x: string, y: string, contents: string,
                       r: Path)
    requires Between(["src", x], ["src", y], r)
    ensures Inputs(Package(manifest, script, identity, x, contents), false)(r).None?
  {
    NamesDiffer();
    TextOrder();
    PathOrder();
    PackageInputs(manifest, script, identity, x, contents, r);
  }

  /** Two packages that the code accepts, with the same contents and one source file under different
      names: their inputs differ, and if the names share a label their streams do not. */
  lemma SharedLabelIsInvisible(lossy: Lossy, manifest: string, script: string, identity: string, x: string, y: string,
                               contents: string, c: seq<(string, string)>, s: string, s': string)
    requires IsName(x) && IsName(y) && x != y && lossy(JoinSlash(["src", x])) == lossy(JoinSlash(["src", y]))
    requires IsIdentity(lossy, Inputs(Package(manifest, script, identity, x, contents), false), c, s)
    requires IsIdentity(lossy, Inputs(Package(manifest, script, identity, y, contents), false), c, s')
    ensures var root, root' := Package(manifest, script, identity, x, contents),
                               Package(manifest, script, identity, y, contents);
            && WellFormed(root) && Inspectable(root, false) && WellFormed(root') && Inspectable(root', false)
            && Inputs(root, false)(["src", x]).Some? && Inputs(root', false)(["src", x]).None? && s == s'
  {
    PackageIsInspectable(manifest, script, identity, x, contents);
    PackageIsInspectable(manifest, script, identity, y, contents);
    PackageIsRenamed(manifest, script, identity, x, y, contents);
    var at, at' := Inputs(Package(manifest, script, identity, x, contents), false),
                   Inputs(Package(manifest, script, identity, y, contents), false);
    assert Indistinct(lossy, at, ["src", x], ["src", y]) by {
      forall r | Between(["src", x], ["src", y], r) ensures at(r).None? {
        NothingBetween(manifest, script, identity, x, y, contents, r);
      }
    }
    IndistinctStreams(lossy, at, ["src", x], at', ["src", y], c, s, s');
  }
}
