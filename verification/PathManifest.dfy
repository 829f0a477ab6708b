/** The manifest of managed paths (crates/jig-bootstrap/src/managed_paths.rs). A set of paths is
    written in the order of its components and read back only when sorted as text. Texts are
    sequences of Unicode characters, whose order is that of their UTF-8 bytes. */
module PathManifest {
  import opened Wrappers
  import opened Orders
  import opened PathText

  /** A path as its components; `/`, `.` and `..` stand for the root, the current and the
      parent directory. */
  type Path = seq<string>

  const MANIFEST_PARTS: Path := [".agent", "jig-managed-paths.json"]
  const MANIFEST_PATH: string := ".agent" + "/" + "jig-managed-paths.json"
  const MANIFEST_VERSION := 1

  // ---- one path ----

  /** `Path::components` of a text. */
  function Components(text: string): Path {
    var parts := SplitSlash(text);
    (if text != "" && text[0] == '/' then ["/"] else if parts[0] == "." then ["."] else []) + NamedParts(parts)
  }

  predicate Normal(part: string) {
    part != "/" && part != "." && part != ".."
  }

  predicate Ignorable(c: char) {
    || '\U{200c}' <= c <= '\U{200f}' || '\U{202a}' <= c <= '\U{202e}'
    || '\U{206a}' <= c <= '\U{206f}' || c == '\U{feff}'
  }

  function Visible(part: string): string {
    if part == "" then "" else (if Ignorable(part[0]) then "" else [part[0]]) + Visible(part[1..])
  }

  function LowerAscii(c: char): char {
    if 'A' <= c <= 'Z' then c + 32 as char else c
  }

  /** An alias of `.git`. */
  predicate Reserved(part: string) {
    var v := Visible(part);
    |v| == 4 && v[0] == '.' && LowerAscii(v[1]) == 'g' && LowerAscii(v[2]) == 'i' && LowerAscii(v[3]) == 't'
  }

  /** `validate_manifest_path`. */
  predicate ValidEntry(entry: string) {
    && entry != ""
    && entry[0] != '/'
    && (forall part | part in Components(entry) :: Normal(part))
    && (forall part | part in Components(entry) :: !Reserved(part))
    && '\\' !in entry
    && JoinSlash(Components(entry)) == entry
  }

  /** The code points that Git's rules for HFS ignore in a name. */
  const IGNORED := {'\U{200c}', '\U{200d}', '\U{200e}', '\U{200f}', '\U{202a}', '\U{202b}', '\U{202c}', '\U{202d}',
                    '\U{202e}', '\U{206a}', '\U{206b}', '\U{206c}', '\U{206d}', '\U{206e}', '\U{206f}', '\U{feff}'}

  ghost predicate AllIgnored(text: string) {
    forall k | 0 <= k < |text| :: text[k] in IGNORED
  }

  /** The name is `.git` in any case, with ignored code points anywhere. */
  ghost predicate AliasesGit(part: string) {
    exists s0, s1, s2, s3, s4, g, i, t :: Spells(part, s0, s1, g, s2, i, s3, t, s4)
  }

  ghost predicate Spells(part: string, s0: string, s1: string, g: char, s2: string, i: char, s3: string, t: char,
                         s4: string) {
    && part == s0 + ['.'] + (s1 + [g] + (s2 + [i] + (s3 + [t] + s4)))
    && AllIgnored(s0) && AllIgnored(s1) && AllIgnored(s2) && AllIgnored(s3) && AllIgnored(s4)
    && g in {'g', 'G'} && i in {'i', 'I'} && t in {'t', 'T'}
  }

  lemma IgnorableIs(c: char)
    ensures Ignorable(c) <==> c in IGNORED
  {
    var n := c as int;
    if Ignorable(c) {
      assert n in [0x200c, 0x200d, 0x200e, 0x200f, 0x202a, 0x202b, 0x202c, 0x202d, 0x202e, 0x206a, 0x206b, 0x206c,
                   0x206d, 0x206e, 0x206f, 0xfeff];
    }
  }

  lemma {:induction false} VisibleJoins(a: string, b: string)
    ensures Visible(a + b) == Visible(a) + Visible(b)
  {
    if a == "" {
      assert a + b == b;
    } else {
      assert (a + b)[0] == a[0] && (a + b)[1..] == a[1..] + b;
      VisibleJoins(a[1..], b);
    }
  }

  lemma {:induction false} NothingVisible(text: string)
    ensures Visible(text) == "" <==> AllIgnored(text)
  {
    if text != "" {
      IgnorableIs(text[0]);
      NothingVisible(text[1..]);
      assert AllIgnored(text) <==> text[0] in IGNORED && AllIgnored(text[1..]) by {
        assert forall k | 0 < k < |text| :: text[k] == text[1..][k - 1];
      }
    }
  }

  /** The first visible character, with what is ignored before it. */
  lemma {:induction false} FirstVisible(text: string) returns (before: string, rest: string)
    requires Visible(text) != ""
    ensures text == before + [Visible(text)[0]] + rest && AllIgnored(before) && Visible(rest) == Visible(text)[1..]
  {
    if Ignorable(text[0]) {
      IgnorableIs(text[0]);
      var b, r := FirstVisible(text[1..]);
      before, rest := [text[0]] + b, r;
      assert text == [text[0]] + text[1..];
    } else {
      before, rest := "", text[1..];
      assert text == [text[0]] + text[1..];
    }
  }

  lemma VisibleOne(before: string, c: char, rest: string)
    requires AllIgnored(before) && !Ignorable(c)
    ensures Visible(before + [c] + rest) == [c] + Visible(rest)
  {
    NothingVisible(before);
    VisibleJoins(before + [c], rest);
    VisibleJoins(before, [c]);
    assert [c][1..] == "";
  }

  /** The check for aliases of `.git` finds exactly those. */
  lemma ReservedExactly(part: string)
    ensures Reserved(part) <==> AliasesGit(part)
  {
    if Reserved(part) { ReservedIsAlias(part); }
    if AliasesGit(part) { AliasIsReserved(part); }
  }

  lemma LowerIs(c: char, lower: char, upper: char)
    requires 'a' <= lower <= 'z' && upper as int + 32 == lower as int
    ensures LowerAscii(c) == lower <==> c == lower || c == upper
  {
  }

  lemma LowerGit(g: char, i: char, t: char)
    ensures LowerAscii(g) == 'g' <==> g in {'g', 'G'}
    ensures LowerAscii(i) == 'i' <==> i in {'i', 'I'}
    ensures LowerAscii(t) == 't' <==> t in {'t', 'T'}
  {
    LowerIs(g, 'g', 'G');
    LowerIs(i, 'i', 'I');
    LowerIs(t, 't', 'T');
  }

  lemma ReservedIsAlias(part: string)
    requires Reserved(part)
    ensures AliasesGit(part)
  {
    var v := Visible(part);
    var s0, r0 := FirstVisible(part);
    var s1, r1 := FirstVisible(r0);
    var s2, r2 := FirstVisible(r1);
    var s3, s4 := FirstVisible(r2);
    NothingVisible(s4);
    LowerGit(v[1], v[2], v[3]);
    assert Spells(part, s0, s1, v[1], s2, v[2], s3, v[3], s4);
  }

  lemma AliasIsReserved(part: string)
    requires AliasesGit(part)
    ensures Reserved(part)
  {
    var s0, s1, s2, s3, s4, g, i, t :| Spells(part, s0, s1, g, s2, i, s3, t, s4);
    VisibleOne(s0, '.', s1 + [g] + (s2 + [i] + (s3 + [t] + s4)));
    VisibleOne(s1, g, s2 + [i] + (s3 + [t] + s4));
    VisibleOne(s2, i, s3 + [t] + s4);
    VisibleOne(s3, t, s4);
    NothingVisible(s4);
    LowerGit(g, i, t);
    assert Visible(part) == ['.', g, i, t];
  }

  /** A name that may stand in a managed path. */
  ghost predicate SafeName(part: string) {
    && part != "" && part != "." && part != ".." && '/' !in part && '\\' !in part && !AliasesGit(part)
  }

  /** The same as the checks put it. */
  predicate AcceptedName(part: string) {
    IsName(part) && Normal(part) && !Reserved(part) && '\\' !in part
  }

  lemma SafeNameIs(part: string)
    ensures SafeName(part) <==> AcceptedName(part)
  {
    ReservedExactly(part);
    assert '/' in "/";
  }

  lemma SafeNamesAre(parts: Path)
    ensures SafePath(parts) <==> parts != [] && forall part | part in parts :: AcceptedName(part)
  {
    forall part | part in parts ensures SafeName(part) <==> AcceptedName(part) { SafeNameIs(part); }
  }

  ghost predicate SafePath(path: Path) {
    path != [] && forall part | part in path :: SafeName(part)
  }

  /** An entry is accepted exactly when it is a safe path, written with single slashes. */
  lemma EntryMeaning(entry: string)
    ensures ValidEntry(entry) <==> SafePath(SplitSlash(entry))
    ensures ValidEntry(entry) ==> Components(entry) == SplitSlash(entry)
  {
    var parts := SplitSlash(entry);
    NamedPartsAre(parts);
    SplitCharacters(entry, '\\');
    JoinOfSplit(entry);
    SafeNamesAre(parts);
    if ValidEntry(entry) { ValidIsSafe(entry); }
    if SafePath(parts) { SafeIsValid(entry); }
  }

  lemma ValidIsSafe(entry: string)
    requires ValidEntry(entry)
    ensures Components(entry) == SplitSlash(entry) && forall part | part in SplitSlash(entry) :: AcceptedName(part)
  {
    var parts, cs := SplitSlash(entry), Components(entry);
    NamedPartsAre(parts);
    SplitCharacters(entry, '\\');
    assert parts[0] in parts;
    assert "." !in cs;
    assert cs == NamedParts(parts);
    SplitOfJoin(cs);
  }

  lemma SafeIsValid(entry: string)
    requires forall part | part in SplitSlash(entry) :: AcceptedName(part)
    ensures ValidEntry(entry)
  {
    var parts := SplitSlash(entry);
    NamedPartsAre(parts);
    SplitCharacters(entry, '\\');
    JoinOfSplit(entry);
    assert parts[0] in parts;
    assert Components(entry) == parts;
  }

  /** The components of some path: only the first can be the root or the current directory. */
  ghost predicate IsPath(path: Path) {
    forall i | 0 <= i < |path| :: IsName(path[i]) || (i == 0 && path[i] == "/")
  }

  /** `manifest_path_string`. */
  function ManifestPathString(path: Path): Option<string> {
    if exists part | part in path :: !Normal(part) then None
    else if ValidEntry(JoinSlash(path)) then Some(JoinSlash(path))
    else None
  }

  lemma PathStringMeaning(path: Path)
    requires IsPath(path)
    ensures ManifestPathString(path) == if SafePath(path) then Some(JoinSlash(path)) else None
  {
    if path == [] {
      assert !ValidEntry(JoinSlash(path));
    } else if forall part | part in path :: Normal(part) {
      forall part | part in path ensures IsName(part) {
        var i :| 0 <= i < |path| && path[i] == part;
      }
      SplitOfJoin(path);
      EntryMeaning(JoinSlash(path));
    }
  }

  // ---- two orders ----

  /** The length of the longest common prefix. */
  function Common(a: string, b: string): (n: nat)
    ensures n <= |a| && n <= |b| && a[..n] == b[..n]
    ensures n < |a| && n < |b| ==> a[n] != b[n]
  {
    if a == "" || b == "" || a[0] != b[0] then 0 else 1 + Common(a[1..], b[1..])
  }

  lemma {:induction false} DecidedAt(a: string, b: string, n: nat)
    requires n < |a| && n < |b| && a[..n] == b[..n] && a[n] != b[n]
    ensures TextLess(a, b) <==> a[n] < b[n]
  {
    if n > 0 {
      assert a[0] == a[..n][0] && b[0] == b[..n][0];
      assert a[1..][..n - 1] == a[..n][1..] && b[1..][..n - 1] == b[..n][1..];
      DecidedAt(a[1..], b[1..], n - 1);
    }
  }

  lemma {:induction false} PrefixIsLess(a: string, b: string)
    requires a < b
    ensures TextLess(a, b) && !TextLess(b, a)
  {
    if a != "" { PrefixIsLess(a[1..], b[1..]); }
  }

  lemma {:induction false} SamePrefix(c: string, x: string, y: string)
    ensures TextLess(c + x, c + y) <==> TextLess(x, y)
  {
    if c == "" {
      assert c + x == x && c + y == y;
    } else {
      assert (c + x)[1..] == c[1..] + x && (c + y)[1..] == c[1..] + y;
      SamePrefix(c[1..], x, y);
    }
  }

  /** After `k` common components `p` has a component and goes on below it, where `q` has that
      component extended by a character that sorts before the slash. */
  predicate ConflictAt(p: Path, q: Path, k: nat) {
    && k + 1 < |p| && k < |q| && p[..k] == q[..k]
    && p[k] < q[k] && q[k][|p[k]|] < '/'
  }

  ghost predicate Conflict(p: Path, q: Path) {
    exists k: nat :: ConflictAt(p, q, k)
  }

  lemma ConflictLater(p: Path, q: Path)
    requires p != [] && q != [] && p[0] == q[0]
    ensures Conflict(p, q) <==> Conflict(p[1..], q[1..])
  {
    if Conflict(p, q) {
      var k: nat :| ConflictAt(p, q, k);
      assert p[1..][..k - 1] == p[..k][1..] && q[1..][..k - 1] == q[..k][1..];
      assert ConflictAt(p[1..], q[1..], k - 1);
    }
    if Conflict(p[1..], q[1..]) {
      var k: nat :| ConflictAt(p[1..], q[1..], k);
      assert p[..k + 1] == [p[0]] + p[1..][..k] && q[..k + 1] == [q[0]] + q[1..][..k];
      assert ConflictAt(p, q, k + 1);
    }
  }

  lemma ConflictNow(p: Path, q: Path)
    requires p != [] && q != [] && p[0] != q[0]
    ensures Conflict(p, q) <==> ConflictAt(p, q, 0)
  {
    if Conflict(p, q) {
      var k: nat :| ConflictAt(p, q, k);
      assert p == p[..k] + p[k..] && q == q[..k] + q[k..];
    }
  }

  /** Heads that differ in a character decide both orders alike. */
  lemma HeadsDiffer(p: Path, q: Path, n: nat)
    requires p != [] && q != [] && n < |p[0]| && n < |q[0]| && p[0][..n] == q[0][..n] && p[0][n] != q[0][n]
    ensures PathLess(p, q) <==> TextLess(JoinSlash(p), JoinSlash(q))
    ensures !Conflict(p, q) && !Conflict(q, p)
  {
    var a, b := JoinSlash(p), JoinSlash(q);
    assert a[..|p[0]|] == p[0] && b[..|q[0]|] == q[0];
    assert a[..n] == p[0][..n] && b[..n] == q[0][..n];
    DecidedAt(a, b, n);
    DecidedAt(p[0], q[0], n);
    ConflictNow(p, q);
    ConflictNow(q, p);
  }

  /** A head that extends another puts its path later, except over a slash. */
  lemma HeadExtends(p: Path, q: Path)
    requires AllNames(p) && AllNames(q) && p != [] && q != [] && p[0] < q[0]
    ensures PathLess(p, q) && !PathLess(q, p) && !Conflict(q, p)
    ensures TextLess(JoinSlash(p), JoinSlash(q)) <==> !Conflict(p, q)
    ensures TextLess(JoinSlash(q), JoinSlash(p)) <==> Conflict(p, q)
  {
    var a, b, n := JoinSlash(p), JoinSlash(q), |p[0]|;
    PrefixIsLess(p[0], q[0]);
    ConflictNow(p, q);
    ConflictNow(q, p);
    assert b[..|q[0]|] == q[0];
    if |p| == 1 {
      PrefixIsLess(a, b);
    } else {
      assert q[0] in q && q[0][n] in q[0];
      assert a[n] == '/' && b[n] == q[0][n];
      DecidedAt(a, b, n);
      DecidedAt(b, a, n);
    }
  }

  /** The order of paths and the order of their texts agree on a pair exactly when neither
      conflicts with the other. */
  lemma {:induction false} OrdersAgree(p: Path, q: Path)
    requires AllNames(p) && AllNames(q) && p != [] && q != []
    ensures (PathLess(p, q) <==> TextLess(JoinSlash(p), JoinSlash(q))) <==> !Conflict(p, q) && !Conflict(q, p)
    ensures Conflict(p, q) ==> PathLess(p, q) && TextLess(JoinSlash(q), JoinSlash(p))
    decreases |p|, 1
  {
    var n := Common(p[0], q[0]);
    if n < |p[0]| && n < |q[0]| {
      HeadsDiffer(p, q, n);
    } else if p[0] < q[0] {
      HeadExtends(p, q);
    } else if q[0] < p[0] {
      HeadExtends(q, p);
    } else {
      SameHeads(p, q);
    }
  }

  lemma SameHeads(p: Path, q: Path)
    requires AllNames(p) && AllNames(q) && p != [] && q != [] && p[0] == q[0]
    ensures (PathLess(p, q) <==> TextLess(JoinSlash(p), JoinSlash(q))) <==> !Conflict(p, q) && !Conflict(q, p)
    ensures Conflict(p, q) ==> PathLess(p, q) && TextLess(JoinSlash(q), JoinSlash(p))
    decreases |p|, 0
  {
    TextOrder();
    ConflictLater(p, q);
    ConflictLater(q, p);
    if |p| == 1 && |q| == 1 {
      assert p == q;
      PathOrder();
    } else if |p| == 1 {
      assert p[1..] == [] && LexLess(p[1..], q[1..], TextLess);
      PrefixIsLess(JoinSlash(p), JoinSlash(q));
    } else if |q| == 1 {
      assert q[1..] == [] && LexLess(q[1..], p[1..], TextLess) && !LexLess(p[1..], q[1..], TextLess);
      PrefixIsLess(JoinSlash(q), JoinSlash(p));
    } else {
      OrdersAgree(p[1..], q[1..]);
      SamePrefix(p[0] + "/", JoinSlash(p[1..]), JoinSlash(q[1..]));
      SamePrefix(p[0] + "/", JoinSlash(q[1..]), JoinSlash(p[1..]));
    }
  }

  // ---- the manifest ----

  /** The texts of a list of paths. */
  function Joined(paths: seq<Path>): (r: seq<string>)
    ensures |r| == |paths| && forall i | 0 <= i < |r| :: r[i] == JoinSlash(paths[i])
  {
    if paths == [] then [] else [JoinSlash(paths[0])] + Joined(paths[1..])
  }

  function Parsed(entries: seq<string>): (r: seq<Path>)
    ensures |r| == |entries| && forall i | 0 <= i < |r| :: r[i] == Components(entries[i])
  {
    if entries == [] then [] else [Components(entries[0])] + Parsed(entries[1..])
  }

  /** The texts of all paths, if all are safe. */
  method PathStrings(active: seq<Path>) returns (r: Option<seq<string>>)
    requires forall p | p in active :: IsPath(p)
    ensures r.Some? <==> forall p | p in active :: SafePath(p)
    ensures r.Some? ==> r.value == Joined(active)
  {
    var entries: seq<string> := [];
    var i := 0;
    while i < |active|
      invariant 0 <= i <= |active| && |entries| == i
      invariant forall k | 0 <= k < i :: SafePath(active[k]) && entries[k] == JoinSlash(active[k])
    {
      var entry := ManifestPathString(active[i]);
      PathStringMeaning(active[i]);
      if entry.None? { return None; }
      entries := entries + [entry.value];
      i := i + 1;
    }
    assert entries == Joined(active);
    r := Some(entries);
  }

  /** `write_manifest`, up to the file: the paths of an ordered set, in its order. */
  method WriteManifest(active: seq<Path>) returns (r: Option<seq<string>>)
    requires Increasing(active, PathLess) && forall p | p in active :: IsPath(p)
    ensures r.Some? <==> MANIFEST_PARTS in active && forall p | p in active :: SafePath(p)
    ensures r.Some? ==> r.value == Joined(active)
  {
    if MANIFEST_PARTS !in active { return None; }
    r := PathStrings(active);
  }

  /** A binary search of a strictly increasing list. */
  method BinarySearch(entries: seq<string>, key: string) returns (found: bool)
    requires Increasing(entries, TextLess)
    ensures found <==> key in entries
  {
    TextOrder();
    var lo, hi := 0, |entries|;
    while lo < hi
      invariant 0 <= lo <= hi <= |entries|
      invariant forall k | 0 <= k < lo :: TextLess(entries[k], key)
      invariant forall k | hi <= k < |entries| :: TextLess(key, entries[k])
    {
      var mid := lo + (hi - lo) / 2;
      if TextLess(entries[mid], key) {
        lo := mid + 1;
      } else if TextLess(key, entries[mid]) {
        hi := mid;
      } else {
        return true;
      }
    }
    found := false;
  }

  ghost predicate Accepts(version: nat, entries: seq<string>) {
    && version == MANIFEST_VERSION
    && (forall entry | entry in entries :: ValidEntry(entry))
    && Increasing(entries, TextLess)
    && MANIFEST_PATH in entries
  }

  /** Comparing neighbours is enough for a strictly increasing list. */
  method ValidateEntries(entries: seq<string>) returns (ok: bool)
    ensures ok <==> (forall entry | entry in entries :: ValidEntry(entry)) && Increasing(entries, TextLess)
  {
    TextOrder();
    var previous: Option<string> := None;
    var i := 0;
    while i < |entries|
      invariant 0 <= i <= |entries| && previous == if i == 0 then None else Some(entries[i - 1])
      invariant forall k | 0 <= k < i :: ValidEntry(entries[k])
      invariant forall j, k | 0 <= j < k < i :: TextLess(entries[j], entries[k])
    {
      var entry := entries[i];
      if !ValidEntry(entry) { return false; }
      if previous.Some? {
        if previous.value == entry { return false; }
        if TextLess(entry, previous.value) { return false; }
        Extends(entries, i);
      }
      previous := Some(entry);
      i := i + 1;
    }
    ok := true;
  }

  lemma Extends(entries: seq<string>, i: nat)
    requires 0 < i < |entries| && TextLess(entries[i - 1], entries[i])
    requires forall j, k | 0 <= j < k < i :: TextLess(entries[j], entries[k])
    ensures forall j | 0 <= j < i :: TextLess(entries[j], entries[i])
  {
    TextOrder();
    forall j | 0 <= j < i ensures TextLess(entries[j], entries[i]) {
      if j < i - 1 { assert TextLess(entries[j], entries[i - 1]); }
    }
  }

  /** `validate_manifest`. */
  method ValidateManifest(version: nat, entries: seq<string>) returns (ok: bool)
    ensures ok <==> Accepts(version, entries)
  {
    if version != MANIFEST_VERSION { return false; }
    ok := ValidateEntries(entries);
    if ok { ok := BinarySearch(entries, MANIFEST_PATH); }
  }

  datatype Stored = Absent | NotRegular | Malformed | Manifest(version: nat, entries: seq<string>)
  datatype Loaded = NoManifest | Rejected | Paths(paths: seq<Path>)

  /** `load_manifest`; the resulting set is given as the list it iterates over. */
  method LoadManifest(file: Stored) returns (r: Loaded)
    ensures r == Load(file)
  {
    if file.Absent? { return NoManifest; }
    if file.NotRegular? || file.Malformed? { return Rejected; }
    var ok := ValidateManifest(file.version, file.entries);
    if !ok { return Rejected; }
    r := Paths(Canonical(Parsed(file.entries), PathLess));
  }

  ghost function Load(file: Stored): Loaded {
    if file.Absent? then NoManifest
    else if file.Manifest? && Accepts(file.version, file.entries) then Paths(Canonical(Parsed(file.entries), PathLess))
    else Rejected
  }

  // ---- round trips ----

  ghost predicate Conflicting(paths: seq<Path>) {
    exists p, q | p in paths && q in paths :: Conflict(p, q)
  }

  ghost predicate Writable(active: seq<Path>) {
    Increasing(active, PathLess) && MANIFEST_PARTS in active && forall p | p in active :: SafePath(p)
  }

  lemma SafeIsNamed(path: Path)
    requires SafePath(path)
    ensures AllNames(path) && path != [] && ValidEntry(JoinSlash(path)) && Components(JoinSlash(path)) == path
  {
    SplitOfJoin(path);
    EntryMeaning(JoinSlash(path));
  }

  lemma ParsedJoined(active: seq<Path>)
    requires forall p | p in active :: SafePath(p)
    ensures Parsed(Joined(active)) == active
    ensures forall entry | entry in Joined(active) :: ValidEntry(entry)
  {
    forall i | 0 <= i < |active| ensures Parsed(Joined(active))[i] == active[i] && ValidEntry(Joined(active)[i]) {
      assert active[i] in active;
      SafeIsNamed(active[i]);
    }
  }

  /** The texts of a written set are sorted exactly when no two of its paths conflict. */
  lemma SortedAsText(active: seq<Path>)
    requires Increasing(active, PathLess) && forall p | p in active :: SafePath(p)
    ensures Increasing(Joined(active), TextLess) <==> !Conflicting(active)
  {
    var texts := Joined(active);
    if !Conflicting(active) {
      forall i, j | 0 <= i < j < |texts| ensures TextLess(texts[i], texts[j]) {
        assert active[i] in active && active[j] in active;
        PairSorted(active[i], active[j]);
      }
    } else {
      var p, q :| p in active && q in active && Conflict(p, q);
      ConflictUnsorts(active, p, q);
    }
  }

  lemma PairSorted(p: Path, q: Path)
    requires SafePath(p) && SafePath(q) && PathLess(p, q) && !Conflict(p, q) && !Conflict(q, p)
    ensures TextLess(JoinSlash(p), JoinSlash(q))
  {
    OrdersAgree(p, q);
  }

  lemma ConflictUnsorts(active: seq<Path>, p: Path, q: Path)
    requires Increasing(active, PathLess) && (forall x | x in active :: SafePath(x))
    requires p in active && q in active && Conflict(p, q)
    ensures !Increasing(Joined(active), TextLess)
  {
    var i :| 0 <= i < |active| && active[i] == p;
    var j :| 0 <= j < |active| && active[j] == q;
    assert i < j && TextLess(JoinSlash(q), JoinSlash(p)) && !TextLess(JoinSlash(p), JoinSlash(q)) by {
      OrdersAgree(p, q);
      PathOrder();
      TextOrder();
    }
    assert Joined(active)[i] == JoinSlash(p) && Joined(active)[j] == JoinSlash(q);
  }

  lemma CanonicalIsIdentity(active: seq<Path>)
    requires Increasing(active, PathLess)
    ensures Canonical(active, PathLess) == active
  {
    PathOrder();
    CanonicalOf(active, PathLess);
    IncreasingIsUnique(Canonical(active, PathLess), active, PathLess);
  }

  lemma ManifestListed(active: seq<Path>)
    requires MANIFEST_PARTS in active
    ensures MANIFEST_PATH in Joined(active)
  {
    ManifestText();
    var i :| 0 <= i < |active| && active[i] == MANIFEST_PARTS;
    assert Joined(active)[i] == MANIFEST_PATH;
  }

  /** Writing a set and loading it gives the set back exactly when no two of its paths conflict;
      otherwise the written manifest is rejected. */
  lemma WriteThenLoad(active: seq<Path>)
    requires Writable(active)
    ensures Load(Manifest(MANIFEST_VERSION, Joined(active))) == if Conflicting(active) then Rejected else Paths(active)
  {
    SortedAsText(active);
    ParsedJoined(active);
    ManifestListed(active);
    CanonicalIsIdentity(active);
  }

  lemma NotAnAlias(part: string)
    requires part != "" && !Ignorable(part[0])
    requires part[0] == '.' ==> |part| > 1 && !Ignorable(part[1]) && LowerAscii(part[1]) != 'g'
    ensures !Reserved(part)
  {
    if part[0] == '.' { assert Visible(part)[1] == Visible(part[1..])[0]; }
  }

  lemma PlainName(part: string)
    requires part != "" && 'a' <= part[0] <= 'z' && '/' !in part && '\\' !in part
    ensures SafeName(part)
  {
    NotAnAlias(part);
  }

  lemma ManifestIsSafe()
    ensures SafePath(MANIFEST_PARTS)
  {
    DotName(MANIFEST_PARTS[0]);
    PlainName(MANIFEST_PARTS[1]);
    TwoNames(MANIFEST_PARTS);
  }

  lemma DotName(part: string)
    requires |part| > 1 && part[0] == '.' && 'a' <= part[1] < 'g' && '/' !in part && '\\' !in part
    ensures SafeName(part)
  {
    NotAnAlias(part);
  }

  lemma TwoNames(path: Path)
    requires |path| == 2 && SafeName(path[0]) && SafeName(path[1])
    ensures SafePath(path)
  {
  }

  /** The smallest conflict: a file in a directory `a` beside a file `a.b`. This set is written
      without complaint and cannot be loaded. */
  lemma ConflictExample()
    ensures var active := [MANIFEST_PARTS, ["a", "b"], ["a.b"]];
            Writable(active) && Load(Manifest(MANIFEST_VERSION, Joined(active))) == Rejected
  {
    var manifest: Path, below: Path, beside: Path := MANIFEST_PARTS, ["a", "b"], ["a.b"];
    var active := [manifest, below, beside];
    ManifestIsSafe();
    NotAnAlias("a");
    NotAnAlias("b");
    NotAnAlias("a.b");
    PrefixIsLess("a", "a.b");
    assert TextLess(".agent", "a") && TextLess(".agent", "a.b");
    assert ConflictAt(below, beside, 0);
    assert Conflict(below, beside) && below in active && beside in active;
    WriteThenLoad(active);
  }

  /** Valid entries, read as paths. */
  ghost predicate ReadAs(entries: seq<string>, parsed: seq<Path>) {
    && |parsed| == |entries|
    && (forall i, j | 0 <= i < j < |parsed| :: parsed[i] != parsed[j])
    && (forall i | 0 <= i < |parsed| :: SafePath(parsed[i]))
    && Joined(parsed) == entries
  }

  lemma EntryIsItsPath(entry: string)
    requires ValidEntry(entry)
    ensures SafePath(Components(entry)) && JoinSlash(Components(entry)) == entry
  {
    EntryMeaning(entry);
  }

  lemma EntriesAreDistinctPaths(entries: seq<string>)
    requires (forall entry | entry in entries :: ValidEntry(entry)) && Increasing(entries, TextLess)
    ensures ReadAs(entries, Parsed(entries))
  {
    var parsed := Parsed(entries);
    TextOrder();
    forall i | 0 <= i < |entries| ensures SafePath(parsed[i]) && JoinSlash(parsed[i]) == entries[i] {
      EntryIsItsPath(entries[i]);
    }
    assert Joined(parsed) == entries;
  }

  /** Loading an accepted manifest loses nothing: its entries are distinct paths, which a set
      holds all of, and the set can be written again with the same entries. */
  lemma LoadLosesNothing(entries: seq<string>)
    requires Accepts(MANIFEST_VERSION, entries)
    ensures var active := Canonical(Parsed(entries), PathLess);
            && |active| == |entries|
            && Writable(active)
            && Elements(Joined(active)) == Elements(entries)
  {
    EntriesAreDistinctPaths(entries);
    ManifestFound(entries);
    SetKeeps(entries, Parsed(entries), MANIFEST_PARTS);
  }

  lemma ManifestFound(entries: seq<string>)
    requires MANIFEST_PATH in entries
    ensures MANIFEST_PARTS in Parsed(entries)
  {
    ManifestIsSafe();
    ManifestText();
    SafeIsNamed(MANIFEST_PARTS);
    var i :| 0 <= i < |entries| && entries[i] == MANIFEST_PATH;
    assert Parsed(entries)[i] == MANIFEST_PARTS;
  }

  /** A set of paths keeps all that was read into it. */
  lemma SetKeeps(entries: seq<string>, parsed: seq<Path>, one: Path)
    requires ReadAs(entries, parsed) && one in parsed
    ensures var active := Canonical(parsed, PathLess);
            && |active| == |entries|
            && Increasing(active, PathLess) && one in active && (forall p | p in active :: SafePath(p))
            && Elements(Joined(active)) == Elements(entries)
  {
    var active := Canonical(parsed, PathLess);
    PathOrder();
    CanonicalOf(parsed, PathLess);
    DistinctCount(parsed);
    DistinctCount(active);
    SameTexts(parsed, active);
    assert one in Elements(parsed);
    forall p | p in active ensures SafePath(p) {
      assert p in Elements(active);
    }
  }

  lemma SameTexts(a: seq<Path>, b: seq<Path>)
    requires Elements(a) == Elements(b)
    ensures Elements(Joined(a)) == Elements(Joined(b))
  {
    TextsInside(a, b);
    TextsInside(b, a);
  }

  lemma TextsInside(a: seq<Path>, b: seq<Path>)
    requires Elements(a) == Elements(b)
    ensures forall text | text in Joined(a) :: text in Joined(b)
  {
    forall text | text in Joined(a) ensures text in Joined(b) {
      var i :| 0 <= i < |a| && Joined(a)[i] == text;
      assert a[i] in Elements(b);
      var j :| 0 <= j < |b| && b[j] == a[i];
      assert Joined(b)[j] == text;
    }
  }

  lemma ManifestText()
    ensures JoinSlash(MANIFEST_PARTS) == MANIFEST_PATH
  {
    assert MANIFEST_PARTS[1..] == ["jig-managed-paths.json"];
  }

  /** Loading an accepted manifest and writing it again reproduces it exactly when no two of its
      paths conflict. */
  lemma LoadThenWrite(entries: seq<string>)
    requires Accepts(MANIFEST_VERSION, entries)
    ensures var active := Canonical(Parsed(entries), PathLess);
            Joined(active) == entries <==> !Conflicting(active)
  {
    var active := Canonical(Parsed(entries), PathLess);
    LoadLosesNothing(entries);
    SortedAsText(active);
    TextOrder();
    if Increasing(Joined(active), TextLess) {
      IncreasingIsUnique(Joined(active), entries, TextLess);
    }
  }
}
