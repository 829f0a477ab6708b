/** The build identity: which source files and configuration a build saw
    (crates/jig/build_identity.rs). The digest is SHA-256 over one byte stream; what is shown
    here is about that stream. Texts are byte strings, one character per byte. */
module BuildIdentity {
  import opened Wrappers
  import opened Orders
  import opened PathText
  import opened Occurrences

  // ---- the stream ----

  const DOMAIN: string := "jig-native-build-identity-v3\0"

  function Pow256(k: nat): nat {
    if k == 0 then 1 else 256 * Pow256(k - 1)
  }

  /** The `k` low bytes of `n`, most significant first. */
  function BigEndian(n: nat, k: nat): (r: string)
    ensures |r| == k
  {
    if k == 0 then "" else BigEndian(n / 256, k - 1) + [(n % 256) as char]
  }

  /** `u64::to_be_bytes`, of a length cast to 64 bits. */
  function Length(n: nat): string {
    BigEndian(n, 8)
  }

  function Field(value: string): string {
    Length(|value|) + value
  }

  function Fields(pairs: seq<(string, string)>): string {
    if pairs == [] then "" else Field(pairs[0].0) + Field(pairs[0].1) + Fields(pairs[1..])
  }

  function Stream(configuration: seq<(string, string)>, files: seq<(string, string)>): string {
    DOMAIN + Field(Length(|configuration|)) + Fields(configuration) + Fields(files)
  }

  const LIMIT: nat := 0x1_0000_0000_0000_0000

  /** Shorter than 2^64 bytes: true of everything a 64-bit machine can hold. */
  ghost predicate Fits(pairs: seq<(string, string)>) {
    forall p | p in pairs :: |p.0| < LIMIT && |p.1| < LIMIT
  }

  lemma {:induction false} BigEndianIsInjective(a: nat, b: nat, k: nat)
    requires a < Pow256(k) && b < Pow256(k) && BigEndian(a, k) == BigEndian(b, k)
    ensures a == b
  {
    if k > 0 {
      var x, y := BigEndian(a / 256, k - 1), BigEndian(b / 256, k - 1);
      var u, v := (a % 256) as char, (b % 256) as char;
      assert x == (x + [u])[..k - 1] && y == (y + [v])[..k - 1];
      assert u == (x + [u])[k - 1] && v == (y + [v])[k - 1];
      assert a % 256 == u as int && b % 256 == v as int;
      BigEndianIsInjective(a / 256, b / 256, k - 1);
    }
  }

  lemma LengthIsInjective(a: nat, b: nat)
    requires a < LIMIT && b < LIMIT && Length(a) == Length(b)
    ensures a == b
  {
    assert Pow256(8) == LIMIT by {
      assert Pow256(2) == 0x1_0000;
      assert Pow256(4) == 0x1_0000_0000;
      assert Pow256(6) == 0x1_0000_0000_0000;
    }
    BigEndianIsInjective(a, b, 8);
  }

  /** A field says where it ends. */
  lemma FieldSplits(a: string, b: string, x: string, y: string)
    requires |a| < LIMIT && |b| < LIMIT && Field(a) + x == Field(b) + y
    ensures a == b && x == y
  {
    assert Length(|a|) == (Field(a) + x)[..8] && Length(|b|) == (Field(b) + y)[..8];
    LengthIsInjective(|a|, |b|);
    assert a == (Field(a) + x)[8..8 + |a|] && b == (Field(b) + y)[8..8 + |b|];
    assert x == (Field(a) + x)[8 + |a|..] && y == (Field(b) + y)[8 + |b|..];
  }

  lemma CancelPrefix(d: string, x: string, y: string)
    requires d + x == d + y
    ensures x == y
  {
    assert x == (d + x)[|d|..] && y == (d + y)[|d|..];
  }

  lemma PairSplits(p: (string, string), q: (string, string), x: string, y: string)
    requires |p.0| < LIMIT && |p.1| < LIMIT && |q.0| < LIMIT && |q.1| < LIMIT
    requires Field(p.0) + Field(p.1) + x == Field(q.0) + Field(q.1) + y
    ensures p == q && x == y
  {
    Regroup(Field(p.0), Field(p.1), "", x);
    Regroup(Field(q.0), Field(q.1), "", y);
    FieldSplits(p.0, q.0, Field(p.1) + x, Field(q.1) + y);
    FieldSplits(p.1, q.1, x, y);
  }

  /** Two lists of one length split off the front of a text in one way. */
  lemma {:induction false} FieldsSplit(a: seq<(string, string)>, b: seq<(string, string)>, x: string, y: string)
    requires Fits(a) && Fits(b) && |a| == |b| && Fields(a) + x == Fields(b) + y
    ensures a == b && x == y
  {
    if a == [] {
      CancelPrefix("", x, y);
    } else {
      assert a[0] in a && b[0] in b;
      Regroup(Field(a[0].0), Field(a[0].1), Fields(a[1..]), x);
      Regroup(Field(b[0].0), Field(b[0].1), Fields(b[1..]), y);
      PairSplits(a[0], b[0], Fields(a[1..]) + x, Fields(b[1..]) + y);
      FieldsSplit(a[1..], b[1..], x, y);
      assert a == [a[0]] + a[1..] && b == [b[0]] + b[1..];
    }
  }

  /** Two lists that make up a whole text are one list, whatever their lengths. */
  lemma {:induction false} FieldsAreInjective(a: seq<(string, string)>, b: seq<(string, string)>)
    requires Fits(a) && Fits(b) && Fields(a) == Fields(b)
    ensures a == b
  {
    if a != [] && b != [] {
      assert a[0] in a && b[0] in b;
      PairSplits(a[0], b[0], Fields(a[1..]), Fields(b[1..]));
      FieldsAreInjective(a[1..], b[1..]);
      assert a == [a[0]] + a[1..] && b == [b[0]] + b[1..];
    }
  }

  /** The stream determines the configuration list and the labelled contents. */
  lemma StreamIsInjective(c: seq<(string, string)>, f: seq<(string, string)>,
                          c': seq<(string, string)>, f': seq<(string, string)>)
    requires Fits(c) && Fits(f) && Fits(c') && Fits(f') && |c| < LIMIT && |c'| < LIMIT
    requires Stream(c, f) == Stream(c', f')
    ensures c == c' && f == f'
  {
    var count, count' := Length(|c|), Length(|c'|);
    Regroup(DOMAIN, Field(count), Fields(c), Fields(f));
    Regroup(DOMAIN, Field(count'), Fields(c'), Fields(f'));
    CancelPrefix(DOMAIN, Field(count) + (Fields(c) + Fields(f)), Field(count') + (Fields(c') + Fields(f')));
    FieldSplits(count, count', Fields(c) + Fields(f), Fields(c') + Fields(f'));
    LengthIsInjective(|c|, |c'|);
    FieldsSplit(c, c', Fields(f), Fields(f'));
    FieldsAreInjective(f, f');
  }

  // ---- the source tree ----

  datatype Node = File(contents: string) | Directory(entries: seq<Entry>) | Symlink | Special
  datatype Entry = Entry(name: string, node: Node)
  type Path = seq<string>

  function Child(entries: seq<Entry>, name: string): Option<Node> {
    if entries == [] then None
    else if entries[0].name == name then Some(entries[0].node)
    else Child(entries[1..], name)
  }

  function NodeIn(node: Node, name: string): Option<Node> {
    if node.Directory? then Child(node.entries, name) else None
  }

  /** The contents of the regular file at a path below `node`. */
  function FileAt(node: Node, path: Path): Option<string>
    decreases path
  {
    if path == [] then (if node.File? then Some(node.contents) else None)
    else
      var child := NodeIn(node, path[0]);
      if child.None? then None else FileAt(child.value, path[1..])
  }

  /** Names are components, and a directory has each once. */
  ghost predicate WellFormed(node: Node) {
    node.Directory? ==>
      && (forall e | e in node.entries :: IsName(e.name))
      && (forall i, j | 0 <= i < j < |node.entries| :: node.entries[i].name != node.entries[j].name)
      && (forall e | e in node.entries :: WellFormed(e.node))
  }

  /** Only regular files and directories, all the way down. */
  ghost predicate Plain(node: Node) {
    node.File? || (node.Directory? && forall e | e in node.entries :: Plain(e.node))
  }

  predicate EntryLess(a: Entry, b: Entry) {
    TextLess(a.name, b.name)
  }

  lemma ChildIs(entries: seq<Entry>, e: Entry)
    requires e in entries
    requires forall i, j | 0 <= i < j < |entries| :: entries[i].name != entries[j].name
    ensures Child(entries, e.name) == Some(e.node)
  {
    if entries[0] == e {
    } else {
      assert entries == [entries[0]] + entries[1..];
      assert e in entries[1..];
      var k :| 0 <= k < |entries[1..]| && entries[1..][k] == e;
      assert entries[k + 1] == e;
      ChildIs(entries[1..], e);
    }
  }

  lemma ChildExists(entries: seq<Entry>, name: string)
    requires Child(entries, name).Some?
    ensures Entry(name, Child(entries, name).value) in entries
  {
  }

  /** `paths` are the files below `node`, each written below `at`. */
  ghost predicate FilesOf(at: Path, node: Node, paths: seq<Path>) {
    forall p :: p in paths <==> at <= p && FileAt(node, p[|at|..]).Some?
  }

  /** `paths` are the files below the entries. */
  ghost predicate FilesOfEntries(at: Path, entries: seq<Entry>, paths: seq<Path>) {
    forall p :: p in paths <==> exists e | e in entries :: at + [e.name] <= p && FileAt(e.node, p[|at| + 1..]).Some?
  }

  lemma EntriesMakeDirectory(at: Path, node: Node, sorted: seq<Entry>, paths: seq<Path>)
    requires WellFormed(node) && node.Directory?
    requires forall e :: e in sorted <==> e in node.entries
    requires FilesOfEntries(at, sorted, paths)
    ensures FilesOf(at, node, paths)
  {
    forall p ensures p in paths <==> at <= p && FileAt(node, p[|at|..]).Some? {
      if p in paths {
        var e :| e in sorted && at + [e.name] <= p && FileAt(e.node, p[|at| + 1..]).Some?;
        ChildIs(node.entries, e);
        assert p[|at|] == (at + [e.name])[|at|];
        assert p[|at|..][1..] == p[|at| + 1..];
      }
      if at <= p && FileAt(node, p[|at|..]).Some? {
        var rel := p[|at|..];
        assert rel[1..] == p[|at| + 1..];
        ChildExists(node.entries, rel[0]);
        var e := Entry(rel[0], Child(node.entries, rel[0]).value);
        assert at + [e.name] == p[..|at| + 1];
        assert e in sorted;
      }
    }
  }

  /** `inputs'` is `inputs` followed by the files below `node`. */
  ghost predicate Adds(at: Path, node: Node, inputs: seq<Path>, inputs': seq<Path>) {
    inputs <= inputs' && FilesOf(at, node, inputs'[|inputs|..])
  }

  ghost predicate AddsEntries(at: Path, entries: seq<Entry>, inputs: seq<Path>, inputs': seq<Path>) {
    && inputs <= inputs'
    && FilesOfEntries(at, entries, inputs'[|inputs|..])
    && forall e | e in entries :: Plain(e.node)
  }

  lemma AddsFile(at: Path, node: Node, inputs: seq<Path>)
    requires node.File?
    ensures Adds(at, node, inputs, inputs + [at])
  {
    assert (inputs + [at])[|inputs|..] == [at];
    forall p | at <= p && FileAt(node, p[|at|..]).Some? ensures p == at {
      assert p == at + p[|at|..];
    }
  }

  lemma AddsNothing(at: Path, inputs: seq<Path>)
    ensures AddsEntries(at, [], inputs, inputs)
  {
  }

  lemma AddsEntry(at: Path, entries: seq<Entry>, i: nat, inputs: seq<Path>, before: seq<Path>, after: seq<Path>)
    requires i < |entries| && AddsEntries(at, entries[..i], inputs, before)
    requires Adds(at + [entries[i].name], entries[i].node, before, after) && Plain(entries[i].node)
    ensures AddsEntries(at, entries[..i + 1], inputs, after)
  {
    var e, found, more := entries[i], before[|inputs|..], after[|before|..];
    assert after[|inputs|..] == found + more;
    assert entries[..i + 1] == entries[..i] + [e];
    forall p ensures p in found + more <==>
        exists d | d in entries[..i + 1] :: at + [d.name] <= p && FileAt(d.node, p[|at| + 1..]).Some?
    {
      assert p in more <==> at + [e.name] <= p && FileAt(e.node, p[|at| + 1..]).Some?;
      assert e in entries[..i + 1];
    }
  }

  lemma SortKeeps(entries: seq<Entry>)
    ensures forall e :: e in Sort(entries, EntryLess) <==> e in entries
  {
    forall e ensures e in Sort(entries, EntryLess) <==> e in entries {
      assert e in multiset(Sort(entries, EntryLess)) <==> e in multiset(entries);
    }
  }

  /** `collect_files`: fails on anything but regular files and directories, and otherwise adds
      exactly the files below the path. */
  method CollectFiles(at: Path, node: Node, inputs: seq<Path>) returns (ok: bool, inputs': seq<Path>)
    requires WellFormed(node)
    ensures ok <==> Plain(node)
    ensures ok ==> Adds(at, node, inputs, inputs')
    decreases node
  {
    if node.Symlink? || node.Special? { return false, inputs; }
    if node.File? {
      AddsFile(at, node, inputs);
      return true, inputs + [at];
    }
    var entries := Sort(node.entries, EntryLess);
    SortKeeps(node.entries);
    inputs' := inputs;
    AddsNothing(at, inputs);
    assert entries[..0] == [];
    var i := 0;
    while i < |entries|
      invariant 0 <= i <= |entries| && AddsEntries(at, entries[..i], inputs, inputs')
    {
      var e := entries[i];
      assert e in node.entries;
      var path := at + [e.name];
      ghost var before := inputs';
      if e.node.Directory? {
        ok, inputs' := CollectFiles(path, e.node, inputs');
        if !ok { return; }
      } else if e.node.File? {
        AddsFile(path, e.node, inputs');
        inputs' := inputs' + [path];
      } else {
        return false, inputs';
      }
      AddsEntry(at, entries, i, inputs, before, inputs');
      i := i + 1;
    }
    assert entries[..i] == entries;
    EntriesMakeDirectory(at, node, entries, inputs'[|inputs|..]);
    ok := true;
  }

  // ---- the inputs of a layout ----

  function Required(checkout: bool): seq<string> {
    if checkout then ["Cargo.toml", "Cargo.lock"] else ["Cargo.toml", "build.rs", "build_identity.rs"]
  }

  function Optionals(checkout: bool): seq<string> {
    if checkout then [] else ["Cargo.lock"]
  }

  function Trees(checkout: bool): seq<string> {
    if checkout then ["crates", "templates"] else ["src"]
  }

  predicate IsFile(node: Option<Node>) {
    node.Some? && node.value.File?
  }

  /** Every input can be read: nothing required is missing, and nothing is a link. */
  ghost predicate Inspectable(root: Node, checkout: bool) {
    && (forall name | name in Required(checkout) :: IsFile(NodeIn(root, name)))
    && (forall name | name in Optionals(checkout) :: NodeIn(root, name).None? || IsFile(NodeIn(root, name)))
    && (forall name | name in Trees(checkout) :: NodeIn(root, name).Some? && Plain(NodeIn(root, name).value))
  }

  predicate Named(names: seq<string>, trees: seq<string>, path: Path) {
    path != [] && ((|path| == 1 && path[0] in names) || path[0] in trees)
  }

  /** The contents that the identity covers at a path. */
  function InputAt(root: Node, checkout: bool, path: Path): Option<string> {
    if Named(Required(checkout) + Optionals(checkout), Trees(checkout), path) then FileAt(root, path) else None
  }

  /** `inputs` are the files with these names and the files below these trees. */
  ghost predicate Covers(root: Node, names: seq<string>, trees: seq<string>, inputs: seq<Path>) {
    forall p :: p in inputs <==> Named(names, trees, p) && FileAt(root, p).Some?
  }

  lemma FileOfOne(root: Node, name: string)
    ensures FileAt(root, [name]).Some? <==> IsFile(NodeIn(root, name))
  {
    assert [name][1..] == [];
  }

  lemma CoversName(root: Node, names: seq<string>, trees: seq<string>, inputs: seq<Path>, name: string)
    requires Covers(root, names, trees, inputs)
    ensures Covers(root, names + [name], trees, if IsFile(NodeIn(root, name)) then inputs + [[name]] else inputs)
  {
    FileOfOne(root, name);
    var more := if IsFile(NodeIn(root, name)) then inputs + [[name]] else inputs;
    forall p ensures p in more <==> Named(names + [name], trees, p) && FileAt(root, p).Some? {
      if |p| == 1 && p[0] == name { assert p == [name]; }
    }
  }

  lemma CoversTree(root: Node, names: seq<string>, trees: seq<string>, inputs: seq<Path>, name: string,
                   inputs': seq<Path>)
    requires Covers(root, names, trees, inputs)
    requires NodeIn(root, name).Some? && Adds([name], NodeIn(root, name).value, inputs, inputs')
    ensures Covers(root, names, trees + [name], inputs')
  {
    var more := inputs'[|inputs|..];
    assert inputs' == inputs + more;
    forall p ensures p in inputs' <==> Named(names, trees + [name], p) && FileAt(root, p).Some? {
      assert p in more <==> [name] <= p && FileAt(NodeIn(root, name).value, p[1..]).Some?;
    }
  }

  lemma PrefixStep(names: seq<string>, i: nat)
    requires i < |names|
    ensures names[..i + 1] == names[..i] + [names[i]] && names[i] in names
  {
  }

  lemma NodeIsWellFormed(root: Node, name: string)
    requires WellFormed(root) && NodeIn(root, name).Some?
    ensures WellFormed(NodeIn(root, name).value)
  {
    ChildExists(root.entries, name);
  }

  /** `required_inputs` with `optional_regular_input`: the named files. */
  method NamedInputs(root: Node, required: seq<string>, optionals: seq<string>) returns (r: Option<seq<Path>>)
    ensures r.Some? <==> && (forall name | name in required :: IsFile(NodeIn(root, name)))
                         && (forall name | name in optionals :: NodeIn(root, name).None? || IsFile(NodeIn(root, name)))
    ensures r.Some? ==> Covers(root, required + optionals, [], r.value)
  {
    var inputs: seq<Path> := [];
    var i := 0;
    while i < |required|
      invariant 0 <= i <= |required| && Covers(root, required[..i], [], inputs)
      invariant forall k | 0 <= k < i :: IsFile(NodeIn(root, required[k]))
    {
      PrefixStep(required, i);
      CoversName(root, required[..i], [], inputs, required[i]);
      if !IsFile(NodeIn(root, required[i])) { return None; }
      inputs := inputs + [[required[i]]];
      i := i + 1;
    }
    assert required[..i] == required && required + optionals[..0] == required;
    i := 0;
    while i < |optionals|
      invariant 0 <= i <= |optionals| && Covers(root, required + optionals[..i], [], inputs)
      invariant forall k | 0 <= k < i :: NodeIn(root, optionals[k]).None? || IsFile(NodeIn(root, optionals[k]))
    {
      PrefixStep(optionals, i);
      assert required + optionals[..i + 1] == required + optionals[..i] + [optionals[i]];
      CoversName(root, required + optionals[..i], [], inputs, optionals[i]);
      var node := NodeIn(root, optionals[i]);
      if node.Some? {
        if !node.value.File? { return None; }
        inputs := inputs + [[optionals[i]]];
      }
      i := i + 1;
    }
    assert optionals[..i] == optionals;
    r := Some(inputs);
  }

  /** `identity_inputs`: fails exactly when something cannot be inspected. */
  method IdentityInputs(root: Node, checkout: bool) returns (r: Option<seq<Path>>)
    requires WellFormed(root)
    ensures r.Some? <==> Inspectable(root, checkout)
    ensures r.Some? ==> forall p :: p in r.value <==> InputAt(root, checkout, p).Some?
  {
    var names, trees := Required(checkout) + Optionals(checkout), Trees(checkout);
    r := NamedInputs(root, Required(checkout), Optionals(checkout));
    if r.None? { return; }
    var inputs := r.value;
    assert trees[..0] == [];
    var i := 0;
    while i < |trees|
      invariant 0 <= i <= |trees| && Covers(root, names, trees[..i], inputs)
      invariant forall k | 0 <= k < i :: NodeIn(root, trees[k]).Some? && Plain(NodeIn(root, trees[k]).value)
    {
      PrefixStep(trees, i);
      var node := NodeIn(root, trees[i]);
      if node.None? { return None; }
      NodeIsWellFormed(root, trees[i]);
      var ok, inputs' := CollectFiles([trees[i]], node.value, inputs);
      if !ok { return None; }
      CoversTree(root, names, trees[..i], inputs, trees[i], inputs');
      inputs := inputs';
      i := i + 1;
    }
    assert trees[..i] == trees;
    r := Some(inputs);
  }

  // ---- the identity ----

  predicate PairLess(a: (string, string), b: (string, string)) {
    TextLess(a.0, b.0) || (a.0 == b.0 && TextLess(a.1, b.1))
  }

  lemma PairOrder()
    ensures StrictOrder(PairLess)
  {
    TextOrder();
  }

  /** The contents of the files that are covered. */
  type Contents = Path -> Option<string>

  /** How a path's text becomes its label: unchanged where it is UTF-8, with replacement characters
      where it is not. Nothing else is known of it. */
  type Lossy = string -> string

  /** Each path with its label and its contents. */
  function Labelled(lossy: Lossy, at: Contents, paths: seq<Path>): (r: seq<(string, string)>)
    requires forall p | p in paths :: at(p).Some?
    ensures |r| == |paths|
    ensures forall i | 0 <= i < |r| :: r[i] == (lossy(JoinSlash(paths[i])), at(paths[i]).value)
  {
    if paths == [] then [] else [(lossy(JoinSlash(paths[0])), at(paths[0]).value)] + Labelled(lossy, at, paths[1..])
  }

  /** The increasing list of the covered paths. */
  ghost predicate InputList(at: Contents, paths: seq<Path>) {
    Increasing(paths, PathLess) && forall p :: p in paths <==> at(p).Some?
  }

  ghost predicate IsIdentity(lossy: Lossy, at: Contents, configuration: seq<(string, string)>, stream: string) {
    exists paths :: InputList(at, paths)
                    && stream == Stream(Canonical(configuration, PairLess), Labelled(lossy, at, paths))
  }

  function Inputs(root: Node, checkout: bool): Contents {
    p => InputAt(root, checkout, p)
  }

  lemma {:induction false} FieldsSnoc(pairs: seq<(string, string)>, p: (string, string))
    ensures Fields(pairs + [p]) == Fields(pairs) + Field(p.0) + Field(p.1)
  {
    if pairs == [] {
      assert pairs + [p] == [p] && [p][1..] == [];
      Regroup(Field(p.0), Field(p.1), "", "");
    } else {
      assert (pairs + [p])[1..] == pairs[1..] + [p];
      FieldsSnoc(pairs[1..], p);
      Regroup(Field(pairs[0].0) + Field(pairs[0].1), Fields(pairs[1..]), Field(p.0), Field(p.1));
      Regroup(Fields(pairs[1..]), Field(p.0), "", Field(p.1));
    }
  }

  /** Feeding pairs to the digest one field at a time. */
  method HashPairs(digest: string, pairs: seq<(string, string)>) returns (digest': string)
    ensures digest' == digest + Fields(pairs)
  {
    digest' := digest;
    var i := 0;
    while i < |pairs|
      invariant 0 <= i <= |pairs| && digest' == digest + Fields(pairs[..i])
    {
      digest' := digest' + Field(pairs[i].0);
      digest' := digest' + Field(pairs[i].1);
      assert pairs[..i + 1] == pairs[..i] + [pairs[i]];
      FieldsSnoc(pairs[..i], pairs[i]);
      Regroup(digest, Fields(pairs[..i]), Field(pairs[i].0), Field(pairs[i].1));
      Regroup(Fields(pairs[..i]), Field(pairs[i].0), "", Field(pairs[i].1));
      i := i + 1;
    }
    assert pairs[..i] == pairs;
  }

  /** `compute_for_layout`, up to the digest. */
  method ComputeForLayout(lossy: Lossy, root: Node, checkout: bool, configuration: seq<(string, string)>)
    returns (r: Option<string>)
    requires WellFormed(root)
    ensures r.Some? <==> Inspectable(root, checkout)
    ensures r.Some? ==> IsIdentity(lossy, Inputs(root, checkout), configuration, r.value)
  {
    var found := IdentityInputs(root, checkout);
    if found.None? { return None; }
    var inputs := Canonical(found.value, PathLess);
    SortedInputs(Inputs(root, checkout), found.value);
    var digest := DOMAIN;
    var sorted := Canonical(configuration, PairLess);
    digest := digest + Field(Length(|sorted|));
    digest := HashPairs(digest, sorted);
    digest := HashPairs(digest, Labelled(lossy, Inputs(root, checkout), inputs));
    r := Some(digest);
  }

  lemma SortedInputs(at: Contents, found: seq<Path>)
    requires forall p :: p in found <==> at(p).Some?
    ensures InputList(at, Canonical(found, PathLess))
  {
    PathOrder();
    CanonicalOf(found, PathLess);
    forall p ensures p in Canonical(found, PathLess) <==> p in found {
      assert p in Elements(Canonical(found, PathLess)) <==> p in Elements(found);
    }
  }

  // ---- what the identity identifies ----

  /** Lengths fit 64 bits. */
  ghost predicate Small(lossy: Lossy, at: Contents, configuration: seq<(string, string)>) {
    && |configuration| < LIMIT && Fits(configuration)
    && forall p | at(p).Some? :: |lossy(JoinSlash(p))| < LIMIT && |at(p).value| < LIMIT
  }

  /** Paths are made of names. */
  ghost predicate ProperPaths(at: Contents) {
    forall p | at(p).Some? :: p != [] && AllNames(p)
  }

  lemma {:induction false} FileNames(node: Node, path: Path)
    requires WellFormed(node) && FileAt(node, path).Some?
    ensures AllNames(path)
    decreases path
  {
    if path != [] {
      ChildExists(node.entries, path[0]);
      FileNames(Child(node.entries, path[0]).value, path[1..]);
      assert path == [path[0]] + path[1..];
    }
  }

  lemma InputsAreProper(root: Node, checkout: bool)
    requires WellFormed(root)
    ensures ProperPaths(Inputs(root, checkout))
  {
    forall p | InputAt(root, checkout, p).Some? ensures p != [] && AllNames(p) {
      FileNames(root, p);
    }
  }

  lemma CanonicalFits(configuration: seq<(string, string)>)
    requires |configuration| < LIMIT && Fits(configuration)
    ensures |Canonical(configuration, PairLess)| < LIMIT && Fits(Canonical(configuration, PairLess))
  {
    PairOrder();
    CanonicalOf(configuration, PairLess);
    assert |multiset(Sort(configuration, PairLess))| == |multiset(configuration)|;
    forall p | p in Canonical(configuration, PairLess) ensures p in configuration {
      assert p in Elements(Canonical(configuration, PairLess));
    }
  }

  lemma LabelledFits(lossy: Lossy, at: Contents, configuration: seq<(string, string)>, paths: seq<Path>)
    requires Small(lossy, at, configuration) && InputList(at, paths)
    ensures Fits(Labelled(lossy, at, paths))
  {
    var pairs := Labelled(lossy, at, paths);
    forall x | x in pairs ensures |x.0| < LIMIT && |x.1| < LIMIT {
      var i :| 0 <= i < |pairs| && pairs[i] == x;
      assert paths[i] in paths;
    }
  }

  /** Two builds label the same contents in the same order. */
  ghost predicate SameLabels(lossy: Lossy, at: Contents, at': Contents) {
    forall paths, paths' | InputList(at, paths) && InputList(at', paths') ::
      Labelled(lossy, at, paths) == Labelled(lossy, at', paths')
  }

  lemma OneInputList(at: Contents, paths: seq<Path>, paths': seq<Path>)
    requires InputList(at, paths) && InputList(at, paths')
    ensures paths == paths'
  {
    assert Elements(paths) == Elements(paths');
    PathOrder();
    IncreasingIsUnique(paths, paths', PathLess);
  }

  lemma EqualStreams(lossy: Lossy, at: Contents, c: seq<(string, string)>, paths: seq<Path>,
                     at': Contents, c': seq<(string, string)>, paths': seq<Path>)
    requires Small(lossy, at, c) && Small(lossy, at', c') && InputList(at, paths) && InputList(at', paths')
    requires Stream(Canonical(c, PairLess), Labelled(lossy, at, paths)) ==
             Stream(Canonical(c', PairLess), Labelled(lossy, at', paths'))
    ensures Elements(c) == Elements(c') && Labelled(lossy, at, paths) == Labelled(lossy, at', paths')
  {
    CanonicalFits(c);
    CanonicalFits(c');
    LabelledFits(lossy, at, c, paths);
    LabelledFits(lossy, at', c', paths');
    StreamIsInjective(Canonical(c, PairLess), Labelled(lossy, at, paths), Canonical(c', PairLess),
                      Labelled(lossy, at', paths'));
    PairOrder();
    CanonicalOf(c, PairLess);
    CanonicalOf(c', PairLess);
  }

  /** Two builds have one stream exactly when their configurations are the same set and they label
      the same contents in the same order, whatever the paths. */
  lemma IdentityOnLabels(lossy: Lossy, at: Contents, c: seq<(string, string)>, s: string,
                         at': Contents, c': seq<(string, string)>, s': string)
    requires Small(lossy, at, c) && Small(lossy, at', c')
    requires IsIdentity(lossy, at, c, s) && IsIdentity(lossy, at', c', s')
    ensures s == s' <==> Elements(c) == Elements(c') && SameLabels(lossy, at, at')
  {
    var paths :| InputList(at, paths) && s == Stream(Canonical(c, PairLess), Labelled(lossy, at, paths));
    var paths' :| InputList(at', paths') && s' == Stream(Canonical(c', PairLess), Labelled(lossy, at', paths'));
    if s == s' {
      EqualStreams(lossy, at, c, paths, at', c', paths');
      forall q, q' | InputList(at, q) && InputList(at', q') ensures Labelled(lossy, at, q) == Labelled(lossy, at', q') {
        OneInputList(at, paths, q);
        OneInputList(at', paths', q');
      }
    }
    if Elements(c) == Elements(c') && SameLabels(lossy, at, at') {
      PairOrder();
      CanonicalIgnoresOrder(c, c', PairLess);
    }
  }

  // ---- paths and their labels ----

  /** No two covered paths of either build share a label. */
  ghost predicate LabelsTell(lossy: Lossy, at: Contents, at': Contents) {
    forall p, q | (at(p).Some? || at'(p).Some?) && (at(q).Some? || at'(q).Some?)
        && lossy(JoinSlash(p)) == lossy(JoinSlash(q)) :: p == q
  }

  /** So it is when all paths are UTF-8. */
  lemma Utf8LabelsTell(lossy: Lossy, at: Contents, at': Contents)
    requires ProperPaths(at) && ProperPaths(at')
    requires forall p | at(p).Some? || at'(p).Some? :: lossy(JoinSlash(p)) == JoinSlash(p)
    ensures LabelsTell(lossy, at, at')
  {
    forall p, q | (at(p).Some? || at'(p).Some?) && (at(q).Some? || at'(q).Some?)
        && lossy(JoinSlash(p)) == lossy(JoinSlash(q))
      ensures p == q
    {
      JoinIsInjective(p, q);
    }
  }

  /** Equal labels and contents are then equal paths and contents. */
  lemma LabelledDetermines(lossy: Lossy, at: Contents, paths: seq<Path>, at': Contents, paths': seq<Path>)
    requires LabelsTell(lossy, at, at') && InputList(at, paths) && InputList(at', paths')
    requires Labelled(lossy, at, paths) == Labelled(lossy, at', paths')
    ensures forall p :: at(p) == at'(p)
  {
    forall i | 0 <= i < |paths| ensures paths[i] == paths'[i] && at(paths[i]) == at'(paths[i]) {
      assert paths[i] in paths && paths'[i] in paths';
      assert Labelled(lossy, at, paths)[i] == Labelled(lossy, at', paths')[i];
    }
    assert paths == paths';
    forall p ensures at(p) == at'(p) {
      assert p in paths <==> at(p).Some?;
    }
  }

  lemma SameInputsSameLabels(lossy: Lossy, at: Contents, at': Contents)
    requires forall p :: at(p) == at'(p)
    ensures SameLabels(lossy, at, at')
  {
    forall paths, paths' | InputList(at, paths) && InputList(at', paths')
      ensures Labelled(lossy, at, paths) == Labelled(lossy, at', paths')
    {
      OneInputList(at, paths, paths');
    }
  }

  /** When no two paths share a label: two builds have one stream exactly when their configurations
      are the same set and the same files are covered with the same contents. So the stream ignores
      the order and repetition of configuration entries and the order in which directories list,
      and nothing else. */
  lemma IdentityMeaning(lossy: Lossy, at: Contents, c: seq<(string, string)>, s: string,
                        at': Contents, c': seq<(string, string)>, s': string)
    requires LabelsTell(lossy, at, at') && Small(lossy, at, c) && Small(lossy, at', c')
    requires IsIdentity(lossy, at, c, s) && IsIdentity(lossy, at', c', s')
    ensures s == s' <==> Elements(c) == Elements(c') && forall p :: at(p) == at'(p)
  {
    IdentityOnLabels(lossy, at, c, s, at', c', s');
    if SameLabels(lossy, at, at') {
      var paths :| InputList(at, paths) && s == Stream(Canonical(c, PairLess), Labelled(lossy, at, paths));
      var paths' :| InputList(at', paths') && s' == Stream(Canonical(c', PairLess), Labelled(lossy, at', paths'));
      LabelledDetermines(lossy, at, paths, at', paths');
    }
    if forall p :: at(p) == at'(p) { SameInputsSameLabels(lossy, at, at'); }
  }
}
