/** Which Rust tests a change can affect, and the filterset that runs them
    (scripts/test-rust-affected.py). The script's tables are parameters; everything here holds
    for all of them. */
module AffectedTests {
  import opened Wrappers
  import opened Occurrences
  import opened Reachability
  import opened PathText
  import Orders

  // ---- paths ----

  /** The components of a relative path. */
  function Parts(path: string): seq<string> {
    NamedParts(SplitSlash(path))
  }

  function AsPosix(parts: seq<string>): string {
    if parts == [] then "." else JoinSlash(parts)
  }

  /** The package whose directory is the nearest among the first `k` ancestors and up. */
  function NearestOwner(parts: seq<string>, k: nat, roots: map<string, string>): Option<string>
    requires k <= |parts|
  {
    if AsPosix(parts[..k]) in roots then Some(roots[AsPosix(parts[..k])])
    else if k == 0 then None
    else NearestOwner(parts, k - 1, roots)
  }

  function Owner(path: string, roots: map<string, string>): Option<string> {
    var parts := Parts(path);
    if parts == [] then None else NearestOwner(parts, |parts| - 1, roots)
  }

  predicate Matches(path: string, pattern: string) {
    if HasSuffix(pattern, "/") then HasPrefix(path, pattern) else path == pattern
  }

  /** `package` is at the directory of the first `k` components, and no directory between that and
      the path itself is a package's. */
  ghost predicate NearestAt(parts: seq<string>, k: nat, roots: map<string, string>, package: string) {
    && k < |parts| && AsPosix(parts[..k]) in roots && roots[AsPosix(parts[..k])] == package
    && forall j | k < j < |parts| :: AsPosix(parts[..j]) !in roots
  }

  /** A path belongs to the package of the nearest directory above it that is one's, and to none
      exactly when no directory above it is. */
  lemma OwnerIsNearest(path: string, roots: map<string, string>)
    ensures forall package :: Owner(path, roots) == Some(package) <==>
              exists k: nat :: NearestAt(Parts(path), k, roots, package)
    ensures Owner(path, roots).None? <==> forall k: nat | k < |Parts(path)| :: AsPosix(Parts(path)[..k]) !in roots
  {
    var parts := Parts(path);
    if parts != [] { NearestOwnerIs(parts, |parts| - 1, roots); }
    forall package, k: nat, k': nat | NearestAt(parts, k, roots, package) && NearestAt(parts, k', roots, package)
      ensures k == k'
    {
    }
  }

  lemma {:induction false} NearestOwnerIs(parts: seq<string>, n: nat, roots: map<string, string>)
    requires n < |parts| && forall j | n < j < |parts| :: AsPosix(parts[..j]) !in roots
    ensures forall package :: NearestOwner(parts, n, roots) == Some(package) <==>
              exists k: nat :: NearestAt(parts, k, roots, package)
    ensures NearestOwner(parts, n, roots).None? <==> forall k: nat | k < |parts| :: AsPosix(parts[..k]) !in roots
  {
    if AsPosix(parts[..n]) in roots {
      var package := roots[AsPosix(parts[..n])];
      assert NearestAt(parts, n, roots, package);
      forall other, k: nat | NearestAt(parts, k, roots, other) ensures k == n && other == package {
        assert !(k < n) && !(n < k);
      }
    } else if n > 0 {
      NearestOwnerIs(parts, n - 1, roots);
    }
  }

  /** A pattern that ends in a slash covers what is below it, any other only the path itself. */
  lemma MatchesExactly(path: string, pattern: string)
    ensures Matches(path, pattern) <==>
            || path == pattern
            || (pattern != "" && pattern[|pattern| - 1] == '/' && |pattern| < |path|
                && forall k | 0 <= k < |pattern| :: path[k] == pattern[k])
  {
    assert pattern != "" ==> pattern[|pattern| - 1..] == [pattern[|pattern| - 1]];
    if |pattern| <= |path| && forall k | 0 <= k < |pattern| :: path[k] == pattern[k] {
      assert path[..|pattern|] == pattern;
    }
    if HasPrefix(path, pattern) {
      assert forall k | 0 <= k < |pattern| :: path[k] == path[..|pattern|][k];
    }
  }

  // ---- selection ----

  datatype Reader = Reader(pattern: string, packages: set<string>, filters: set<string>)

  /** `FULL_SUITE_PATHS`, `OUTSIDE_PACKAGE_READERS`, `EXTRA_CONSUMERS`, `HOST_SURFACE_TESTS`. */
  datatype Tables = Tables(fullSuite: seq<string>, readers: seq<Reader>, extraConsumers: map<string, set<string>>,
                           hostTests: string)

  datatype Selection = Selection(packages: set<string>, filters: set<string>)

  /** `FullSuite` is the script's exception of that name. */
  datatype Outcome = FullSuite | Affected(selection: Selection)

  function FirstReader(readers: seq<Reader>, path: string): Option<Reader> {
    if readers == [] then None
    else if Matches(path, readers[0].pattern) then Some(readers[0])
    else FirstReader(readers[1..], path)
  }

  /** It is the first in the table that covers the path, if any does. */
  lemma {:induction false} FirstReaderIs(readers: seq<Reader>, path: string) returns (i: nat)
    ensures i <= |readers| && FirstReader(readers, path) == if i < |readers| then Some(readers[i]) else None
    ensures (i < |readers| ==> Matches(path, readers[i].pattern))
            && forall j | 0 <= j < i :: !Matches(path, readers[j].pattern)
  {
    if readers == [] || Matches(path, readers[0].pattern) {
      i := 0;
    } else {
      var later := FirstReaderIs(readers[1..], path);
      i := later + 1;
      assert forall j | 0 < j < |readers| :: readers[j] == readers[1..][j - 1];
    }
  }

  predicate Generated(path: string) {
    "__pycache__" in Parts(path)
  }

  /** What one changed path asks for. */
  function Effect(tables: Tables, roots: map<string, string>, untracked: set<string>, path: string): Outcome {
    if Generated(path) then Affected(Selection({}, {}))
    else
      var host := if path in untracked then {} else {tables.hostTests};
      var owner := Owner(path, roots);
      if owner.Some? then Affected(Selection({owner.value}, host))
      else if exists pattern | pattern in tables.fullSuite :: Matches(path, pattern) then FullSuite
      else
        var reader := FirstReader(tables.readers, path);
        if reader.None? then FullSuite
        else Affected(Selection(reader.value.packages, host + reader.value.filters))
  }

  /** The declarative selection: it depends on the set of changed paths alone. */
  ghost predicate IsOutcome(tables: Tables, roots: map<string, string>, untracked: set<string>, paths: seq<string>,
                            outcome: Outcome)
  {
    match outcome
    case FullSuite => exists path | path in paths :: Effect(tables, roots, untracked, path).FullSuite?
    case Affected(selection) =>
      && (forall path | path in paths :: Effect(tables, roots, untracked, path).Affected?)
      && (forall x :: x in selection.packages <==>
            exists path | path in paths :: x in EffectPackages(tables, roots, untracked, path))
      && (forall x :: x in selection.filters <==>
            exists path | path in paths :: x in EffectFilters(tables, roots, untracked, path))
  }

  function EffectPackages(tables: Tables, roots: map<string, string>, untracked: set<string>,
                          path: string): set<string> {
    match Effect(tables, roots, untracked, path) case FullSuite => {} case Affected(selection) => selection.packages
  }

  function EffectFilters(tables: Tables, roots: map<string, string>, untracked: set<string>,
                         path: string): set<string> {
    match Effect(tables, roots, untracked, path) case FullSuite => {} case Affected(selection) => selection.filters
  }

  /** `affected_selection`: the loop that grows the selection or raises. */
  method AffectedSelection(tables: Tables, roots: map<string, string>, untracked: set<string>, paths: seq<string>)
    returns (outcome: Outcome)
    ensures IsOutcome(tables, roots, untracked, paths, outcome)
  {
    var selection := Selection({}, {});
    for i := 0 to |paths|
      invariant IsOutcome(tables, roots, untracked, paths[..i], Affected(selection))
    {
      var path := paths[i];
      assert paths[..i + 1] == paths[..i] + [path];
      assert path in paths;
      if Generated(path) {
        assert EffectPackages(tables, roots, untracked, path) == {} == EffectFilters(tables, roots, untracked, path);
        continue;
      }
      ghost var before := selection;
      if path !in untracked {
        selection := selection.(filters := selection.filters + {tables.hostTests});
      }
      var owner := Owner(path, roots);
      if owner.Some? {
        selection := selection.(packages := selection.packages + {owner.value});
      } else {
        if exists pattern | pattern in tables.fullSuite :: Matches(path, pattern) {
          return FullSuite;
        }
        var reader := FirstReader(tables.readers, path);
        if reader.None? {
          return FullSuite;
        }
        selection := Selection(selection.packages + reader.value.packages, selection.filters + reader.value.filters);
      }
      assert selection.packages == before.packages + EffectPackages(tables, roots, untracked, path);
      assert selection.filters == before.filters + EffectFilters(tables, roots, untracked, path);
    }
    assert paths[..|paths|] == paths;
    outcome := Affected(selection);
  }

  /** The selection is a function of the set of changed paths, whatever their order. */
  lemma SelectionIgnoresOrder(tables: Tables, roots: map<string, string>, untracked: set<string>,
                              paths: seq<string>, paths': seq<string>, outcome: Outcome, outcome': Outcome)
    requires forall path :: path in paths <==> path in paths'
    requires IsOutcome(tables, roots, untracked, paths, outcome)
             && IsOutcome(tables, roots, untracked, paths', outcome')
    ensures outcome == outcome'
  {
    if outcome.Affected? && outcome'.Affected? {
      assert outcome.selection.packages == outcome'.selection.packages;
      assert outcome.selection.filters == outcome'.selection.filters;
    }
  }

  /** More changed paths never select less. */
  lemma SelectionIsMonotone(tables: Tables, roots: map<string, string>, untracked: set<string>,
                            paths: seq<string>, more: seq<string>, outcome: Outcome, outcome': Outcome)
    requires forall path | path in paths :: path in more
    requires IsOutcome(tables, roots, untracked, paths, outcome) && IsOutcome(tables, roots, untracked, more, outcome')
    ensures outcome.FullSuite? ==> outcome'.FullSuite?
    ensures outcome.Affected? && outcome'.Affected? ==>
              && outcome.selection.packages <= outcome'.selection.packages
              && outcome.selection.filters <= outcome'.selection.filters
  {
  }

  // ---- dependencies ----

  function KnownOnly(names: seq<string>, packages: map<string, seq<string>>): (r: seq<string>)
    ensures forall n :: n in r <==> n in names && n in packages
  {
    if names == [] then []
    else (if names[0] in packages then [names[0]] else []) + KnownOnly(names[1..], packages)
  }

  /** The dependency graph among workspace packages. */
  function Workspace(packages: map<string, seq<string>>): Graph<string> {
    map p | p in packages :: KnownOnly(packages[p], packages)
  }

  /** `workspace_dependencies`: `None` is "not a workspace package". The result is exactly what
      the package reaches, cycles or not. */
  method WorkspaceDependencies(packages: map<string, seq<string>>, package: string) returns (r: Option<set<string>>)
    ensures r.None? <==> package !in packages
    ensures r.Some? ==> forall n :: n in r.value <==> Reaches(Workspace(packages), package, n)
  {
    if package !in packages {
      return None;
    }
    ghost var g := Workspace(packages);
    var closure: set<string> := {};
    var pending := [package];
    WorklistStart(g, [package]);
    while pending != []
      invariant WorklistOk(g, [package], closure, pending)
      invariant (forall n | n in pending :: n in packages) && closure <= packages.Keys
      decreases packages.Keys - closure, |pending|
    {
      var name := pending[|pending| - 1];
      var rest := pending[..|pending| - 1];
      PopLast(pending);
      if name in closure {
        WorklistSkip(g, [package], closure, pending, name, rest);
        pending := rest;
      } else {
        var next := rest + KnownOnly(packages[name], packages);
        assert Successors(g, name) == KnownOnly(packages[name], packages);
        WorklistVisit(g, [package], closure, pending, name, next);
        closure, pending := closure + {name}, next;
      }
    }
    WorklistDone(g, [package], closure);
    OneSeed(g, package, closure);
    r := Some(closure);
  }

  lemma OneSeed(g: Graph<string>, package: string, closure: set<string>)
    requires forall n :: n in closure <==> ReachedFrom(g, [package], n)
    ensures forall n :: n in closure <==> Reaches(g, package, n)
  {
    forall n ensures ReachedFrom(g, [package], n) <==> Reaches(g, package, n) {
      assert package in [package];
    }
  }

  // ---- the filterset ----

  function WithExtraConsumers(tables: Tables, packages: set<string>): set<string> {
    packages + set p, consumer |
                 p in packages && p in tables.extraConsumers && consumer in tables.extraConsumers[p] :: consumer
  }

  /** The package a filter is limited to: `re.match` of `package\(=([^)]+)\) & `. */
  function FilterScope(filter: string): Option<string> {
    if !HasPrefix(filter, "package(=") then None
    else
      var split := SplitOnce(filter[|"package(="|..], ")");
      if split.None? || split.value.0 == "" || !HasPrefix(split.value.1, " & ") then None else Some(split.value.0)
  }

  datatype Term = ReverseDependencies(package: string) | Filter(text: string)

  /** What a term of the filterset runs: `rdeps(=X)` every package that depends on X, a filter
      the packages it is not limited away from. */
  ghost predicate Covers(packages: map<string, seq<string>>, term: Term, package: string) {
    match term
    case ReverseDependencies(dependency) => Reaches(Workspace(packages), package, dependency)
    case Filter(text) => forall scope | LimitedTo(text, scope) :: scope == package
  }

  /** The filter reads `package(=scope) & ` and more. */
  predicate LimitedTo(text: string, scope: string) {
    scope != "" && ')' !in scope && HasPrefix(text, "package(=" + scope + ") & ")
  }

  function TermsOf(packages: seq<string>, filters: seq<string>): seq<Term> {
    seq(|packages|, i requires 0 <= i < |packages| => ReverseDependencies(packages[i])) +
    seq(|filters|, i requires 0 <= i < |filters| => Filter(filters[i]))
  }

  /** `scope_filterset` of a selection: its terms in order, packages first. */
  ghost predicate IsFilterset(tables: Tables, selection: Selection, terms: seq<Term>) {
    exists packages: seq<string>, filters: seq<string> ::
      && terms == TermsOf(packages, filters)
      && Orders.Increasing(packages, Orders.TextLess) && Orders.Increasing(filters, Orders.TextLess)
      && Orders.Elements(packages) == WithExtraConsumers(tables, selection.packages)
      && Orders.Elements(filters) == selection.filters
  }

  /** The match finds the one package that a filter is limited to. */
  lemma FilterScopeMeaning(text: string, scope: string)
    ensures FilterScope(text) == Some(scope) <==> LimitedTo(text, scope)
  {
    if FilterScope(text) == Some(scope) { ScopeIsLimit(text, scope); }
    if LimitedTo(text, scope) { LimitIsScope(text, scope); }
  }

  lemma ScopeIsLimit(text: string, scope: string)
    requires FilterScope(text) == Some(scope)
    ensures LimitedTo(text, scope)
  {
    var body := text[|"package(="|..];
    SplitOnceFound(body, ")");
    var after := SplitOnce(body, ")").value.1;
    assert text == "package(=" + body && body == scope + ")" + after && after == " & " + after[3..];
    assert text == ("package(=" + scope + ") & ") + after[3..];
    ClosingParenthesis(scope);
  }

  lemma LimitIsScope(text: string, scope: string)
    requires LimitedTo(text, scope)
    ensures FilterScope(text) == Some(scope)
  {
    var head := "package(=" + scope + ") & ";
    var rest := text[|head|..];
    assert text == head + rest;
    assert text[..|"package(="|] == "package(=";
    var body := text[|"package(="|..];
    assert body == scope + ")" + (" & " + rest);
    ClosingParenthesis(scope);
    SplitOnceAt(scope, ")", " & " + rest);
  }

  lemma ClosingParenthesis(scope: string)
    ensures Find(scope + ")", ")") == Some(|scope|) <==> ')' !in scope
  {
    BorderlessFirst(scope, ")");
    if ')' in scope {
      var i :| 0 <= i < |scope| && scope[i] == ')';
      assert scope[i..i + 1] == ")";
      assert OccursAt(scope, ")", i);
    }
    if i: nat :| OccursAt(scope, ")", i) {
      assert scope[i] == scope[i..i + 1][0];
    }
  }

  lemma TermsOfMembers(packages: seq<string>, filters: seq<string>)
    ensures forall p :: ReverseDependencies(p) in TermsOf(packages, filters) <==> p in packages
    ensures forall f :: Filter(f) in TermsOf(packages, filters) <==> f in filters
  {
    var terms := TermsOf(packages, filters);
    forall p | p in packages ensures ReverseDependencies(p) in terms {
      var i :| 0 <= i < |packages| && packages[i] == p;
      assert terms[i] == ReverseDependencies(p);
    }
    forall f | f in filters ensures Filter(f) in terms {
      var i :| 0 <= i < |filters| && filters[i] == f;
      assert terms[|packages| + i] == Filter(f);
    }
  }

  lemma FiltersetTerms(tables: Tables, selection: Selection, terms: seq<Term>)
    requires IsFilterset(tables, selection, terms)
    ensures forall p :: ReverseDependencies(p) in terms <==> p in WithExtraConsumers(tables, selection.packages)
    ensures forall f :: Filter(f) in terms <==> f in selection.filters
  {
    var packages: seq<string>, filters: seq<string> :|
      && terms == TermsOf(packages, filters)
      && Orders.Increasing(packages, Orders.TextLess) && Orders.Increasing(filters, Orders.TextLess)
      && Orders.Elements(packages) == WithExtraConsumers(tables, selection.packages)
      && Orders.Elements(filters) == selection.filters;
    TermsOfMembers(packages, filters);
    forall p ensures p in packages <==> p in Orders.Elements(packages) {
    }
    forall f ensures f in filters <==> f in Orders.Elements(filters) {
    }
  }

  /** Whether the tests of `package` run; the whole suite when nothing narrower was selected. */
  ghost predicate Runs(tables: Tables, packages: map<string, seq<string>>, outcome: Outcome, package: string) {
    match outcome
    case FullSuite => true
    case Affected(selection) =>
      || (exists p | p in WithExtraConsumers(tables, selection.packages) :: Reaches(Workspace(packages), package, p))
      || (exists f | f in selection.filters :: FilterScope(f).None? || FilterScope(f) == Some(package))
  }

  /** `selects_package`: `None` is "not a workspace package". */
  method SelectsPackage(tables: Tables, packages: map<string, seq<string>>, outcome: Outcome, package: string)
    returns (r: Option<bool>)
    ensures r.None? <==> package !in packages
    ensures r.Some? ==> (r.value <==> Runs(tables, packages, outcome, package))
  {
    var dependencies := WorkspaceDependencies(packages, package);
    if dependencies.None? {
      return None;
    }
    if outcome.FullSuite? {
      return Some(true);
    }
    var shared := WithExtraConsumers(tables, outcome.selection.packages) * dependencies.value;
    if shared != {} {
      var p :| p in shared;
      return Some(true);
    }
    assert forall p | p in WithExtraConsumers(tables, outcome.selection.packages) :: p !in dependencies.value by {
      forall p | p in WithExtraConsumers(tables, outcome.selection.packages) ensures p !in dependencies.value {
        assert p !in shared;
      }
    }
    r := Some(exists f | f in outcome.selection.filters :: FilterScope(f).None? || FilterScope(f) == Some(package));
  }

  lemma FilterCovers(packages: map<string, seq<string>>, filter: string, package: string)
    ensures Covers(packages, Filter(filter), package) <==>
            FilterScope(filter).None? || FilterScope(filter) == Some(package)
  {
    forall scope ensures FilterScope(filter) == Some(scope) <==> LimitedTo(filter, scope) {
      FilterScopeMeaning(filter, scope);
    }
  }

  /** `selects_package` agrees with the filterset that is handed to the test runner. */
  lemma SelectsAgreesWithFilterset(tables: Tables, packages: map<string, seq<string>>, selection: Selection,
                                   terms: seq<Term>, package: string)
    requires IsFilterset(tables, selection, terms)
    ensures Runs(tables, packages, Affected(selection), package) <==>
            exists term | term in terms :: Covers(packages, term, package)
  {
    FiltersetTerms(tables, selection, terms);
    forall f ensures Covers(packages, Filter(f), package) <==> FilterScope(f).None? || FilterScope(f) == Some(package) {
      FilterCovers(packages, f, package);
    }
    if p :| p in WithExtraConsumers(tables, selection.packages) && Reaches(Workspace(packages), package, p) {
      assert ReverseDependencies(p) in terms && Covers(packages, ReverseDependencies(p), package);
    }
    if f :| f in selection.filters && (FilterScope(f).None? || FilterScope(f) == Some(package)) {
      assert Filter(f) in terms && Covers(packages, Filter(f), package);
    }
    if term :| term in terms && Covers(packages, term, package) {
      match term
      case ReverseDependencies(p) =>
      case Filter(f) =>
    }
  }

  /** A changed file inside a package runs that package and everything that depends on it. */
  lemma DependentsRun(tables: Tables, roots: map<string, string>, untracked: set<string>, paths: seq<string>,
                      outcome: Outcome, packages: map<string, seq<string>>, path: string, dependent: string)
    requires IsOutcome(tables, roots, untracked, paths, outcome)
    requires path in paths && !Generated(path) && Owner(path, roots).Some?
    requires Reaches(Workspace(packages), dependent, Owner(path, roots).value)
    ensures Runs(tables, packages, outcome, dependent)
  {
    var owner := Owner(path, roots).value;
    if outcome.Affected? {
      assert owner in EffectPackages(tables, roots, untracked, path);
      assert owner in WithExtraConsumers(tables, outcome.selection.packages);
    }
  }

  /** A change inside a `__pycache__` directory changes nothing. */
  lemma GeneratedChangesNothing(tables: Tables, roots: map<string, string>, untracked: set<string>, paths: seq<string>,
                                path: string, outcome: Outcome, outcome': Outcome)
    requires IsOutcome(tables, roots, untracked, paths, outcome)
             && IsOutcome(tables, roots, untracked, paths + [path], outcome')
    requires Generated(path)
    ensures outcome' == outcome
  {
    assert Effect(tables, roots, untracked, path) == Affected(Selection({}, {}));
    assert forall x | x in paths :: x in paths + [path];
    if outcome.Affected? && outcome'.Affected? {
      assert outcome.selection.packages == outcome'.selection.packages;
      assert outcome.selection.filters == outcome'.selection.filters;
    }
  }

  /** Bytecode caches are the exact exception: when the other changed paths do not run a package's
      tests, a change to one more file of that package does if and only if the file is not inside
      a `__pycache__` directory. */
  lemma OwnTestsRunUnlessGenerated(tables: Tables, roots: map<string, string>, untracked: set<string>,
                                   paths: seq<string>, outcome: Outcome, outcome': Outcome,
                                   packages: map<string, seq<string>>, path: string)
    requires IsOutcome(tables, roots, untracked, paths, outcome)
             && IsOutcome(tables, roots, untracked, paths + [path], outcome')
    requires Owner(path, roots).Some? && !Runs(tables, packages, outcome, Owner(path, roots).value)
    ensures Runs(tables, packages, outcome', Owner(path, roots).value) <==> !Generated(path)
  {
    var owner := Owner(path, roots).value;
    if Generated(path) {
      GeneratedChangesNothing(tables, roots, untracked, paths, path, outcome, outcome');
    } else {
      ReachesItself(Workspace(packages), owner);
      DependentsRun(tables, roots, untracked, paths + [path], outcome', packages, path, owner);
    }
  }

  lemma PartsOfJoin(parts: seq<string>)
    requires parts != [] && AllNames(parts) && forall part | part in parts :: Named(part)
    ensures Parts(JoinSlash(parts)) == parts
  {
    SplitOfJoin(parts);
    NamedPartsAre(parts);
  }

  /** A file below a `__pycache__` two levels inside a package that lies at `dir`. */
  lemma BytecodePath(dir: string, cache: string, file: string, package: string)
    requires IsName(dir) && IsName(cache) && IsName(file) && Named(dir) && Named(cache) && Named(file)
    ensures var path := JoinSlash([dir, cache, file]);
            Parts(path) == [dir, cache, file] && Owner(path, map[dir := package]) == Some(package)
  {
    var parts := [dir, cache, file];
    PartsOfJoin(parts);
    assert parts[..2] == [dir, cache] && parts[..1] == [dir];
    assert AsPosix(parts[..1]) == dir && |AsPosix(parts[..2])| > |dir|;
    assert NearestOwner(parts, 1, map[dir := package]) == Some(package);
  }

  lemma GeneratedRunsNothing(tables: Tables, roots: map<string, string>, untracked: set<string>, path: string,
                             outcome: Outcome, packages: map<string, seq<string>>, package: string)
    requires IsOutcome(tables, roots, untracked, [path], outcome) && Generated(path)
    ensures !Runs(tables, packages, outcome, package)
  {
    var nothing := Affected(Selection({}, {}));
    assert IsOutcome(tables, roots, untracked, [], nothing);
    assert [] + [path] == [path];
    GeneratedChangesNothing(tables, roots, untracked, [], path, nothing, outcome);
  }

  /** Such a file: it belongs to package `p`, and a change to it runs nothing of it. */
  lemma BytecodeOfAPackage(tables: Tables, untracked: set<string>, outcome: Outcome, packages: map<string, seq<string>>)
    requires IsOutcome(tables, map["a" := "p"], untracked, [JoinSlash(["a", "__pycache__", "x"])], outcome)
    ensures var path := JoinSlash(["a", "__pycache__", "x"]);
            Owner(path, map["a" := "p"]) == Some("p") && Generated(path) && !Runs(tables, packages, outcome, "p")
  {
    BytecodePath("a", "__pycache__", "x", "p");
    assert "__pycache__" in ["a", "__pycache__", "x"];
    GeneratedRunsNothing(tables, map["a" := "p"], untracked, JoinSlash(["a", "__pycache__", "x"]), outcome, packages,
                         "p");
  }
}
