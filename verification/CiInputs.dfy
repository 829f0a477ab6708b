/** The paths that select a backend's CI workflow: what its checks and everything they depend
    on read (crates/jig-bootstrap/src/repository_model.rs). */
module CiInputs {
  import opened Wrappers
  import opened Reachability
  import Orders

  datatype TargetId = TargetId(component: string, action: string)
  datatype Component = Component(id: string, root: string, adapters: seq<string>)
  datatype Action = Action(target: TargetId, inputs: seq<string>, aliases: seq<string>, dependsOn: seq<TargetId>)
  datatype Model = Model(components: seq<Component>, actions: seq<Action>)

  function FindAction(actions: seq<Action>, target: TargetId): (r: Option<Action>)
    ensures r.Some? ==> exists i | 0 <= i < |actions| ::
              actions[i] == r.value && r.value.target == target && forall j | 0 <= j < i :: actions[j].target != target
    ensures r.None? ==> forall a | a in actions :: a.target != target
  {
    if actions == [] then None
    else if actions[0].target == target then Some(actions[0])
    else FindAction(actions[1..], target)
  }

  function FindComponent(components: seq<Component>, id: string): (r: Option<Component>)
    ensures r.Some? ==> exists i | 0 <= i < |components| ::
              components[i] == r.value && r.value.id == id && forall j | 0 <= j < i :: components[j].id != id
    ensures r.None? ==> forall c | c in components :: c.id != id
  {
    if components == [] then None
    else if components[0].id == id then Some(components[0])
    else FindComponent(components[1..], id)
  }

  function TrimSlashes(root: string): string {
    if root != "" && root[|root| - 1] == '/' then TrimSlashes(root[..|root| - 1]) else root
  }

  function ComponentRootInput(root: string): string {
    if root == "." then "**" else TrimSlashes(root) + "/**"
  }

  /** The roots that an id stands for: of the first component with that id. */
  function RootOf(model: Model, id: string): seq<string> {
    var component := FindComponent(model.components, id);
    if component.Some? then [ComponentRootInput(component.value.root)] else []
  }

  predicate Owns(component: Component, adapters: seq<string>) {
    exists adapter | adapter in component.adapters :: adapter in adapters
  }

  function OwningIds(components: seq<Component>, adapters: seq<string>): (r: seq<string>)
    ensures forall id :: id in r <==> exists c | c in components :: c.id == id && Owns(c, adapters)
  {
    if components == [] then []
    else
      (if Owns(components[0], adapters) then [components[0].id] else []) + OwningIds(components[1..], adapters)
  }

  predicate IsSeed(action: Action, owners: seq<string>, aliases: seq<string>) {
    action.target.component in owners && exists alias | alias in action.aliases :: alias in aliases
  }

  function SeedTargets(actions: seq<Action>, owners: seq<string>, aliases: seq<string>): (r: seq<TargetId>)
    ensures forall t :: t in r <==> exists a | a in actions :: a.target == t && IsSeed(a, owners, aliases)
  {
    if actions == [] then []
    else
      (if IsSeed(actions[0], owners, aliases) then [actions[0].target] else [])
          + SeedTargets(actions[1..], owners, aliases)
  }

  /** The dependency graph: a target runs its first action; an unknown target has no edges. */
  function Dependencies(model: Model): Graph<TargetId> {
    map a | a in model.actions :: a.target := FindAction(model.actions, a.target).value.dependsOn
  }

  /** What running `target` reads. */
  function Reads(model: Model, target: TargetId): seq<string> {
    var action := FindAction(model.actions, target);
    if action.None? then [] else action.value.inputs + RootOf(model, action.value.target.component)
  }

  lemma DependenciesOf(model: Model, target: TargetId)
    ensures Successors(Dependencies(model), target) ==
            var action := FindAction(model.actions, target);
            if action.None? then [] else action.value.dependsOn
  {
    var action := FindAction(model.actions, target);
    if action.Some? { assert action.value in model.actions; }
  }

  /** The paths the workflow must watch. */
  ghost predicate Watched(model: Model, owners: seq<string>, seeds: seq<TargetId>, path: string) {
    || (exists id | id in owners :: path in RootOf(model, id))
    || (exists target :: ReachedFrom(Dependencies(model), seeds, target) && path in Reads(model, target))
  }

  function OwnerRoots(model: Model, owners: seq<string>): (r: seq<string>)
    ensures forall path :: path in r <==> exists id | id in owners :: path in RootOf(model, id)
  {
    if owners == [] then [] else RootOf(model, owners[0]) + OwnerRoots(model, owners[1..])
  }

  /** `backend_ci_input_paths`: a worklist over targets. It ends on every graph, cyclic or with
      unknown targets, and the sorted result is exactly the watched paths, so it does not depend
      on the order in which pending targets are taken. */
  method BackendCiInputPaths(model: Model, adapters: seq<string>, aliases: seq<string>, documentChecks: seq<TargetId>)
    returns (r: seq<string>)
    ensures Orders.Increasing(r, Orders.TextLess)
    ensures var owners := OwningIds(model.components, adapters);
            var seeds := SeedTargets(model.actions, owners, aliases) + documentChecks;
            forall path :: path in r <==> Watched(model, owners, seeds, path)
  {
    ghost var g := Dependencies(model);
    var owners := OwningIds(model.components, adapters);
    var paths := OwnerRoots(model, owners);
    ghost var roots := paths;
    var seeds := SeedTargets(model.actions, owners, aliases) + documentChecks;
    var pending := seeds;
    var visited: set<TargetId> := {};
    WorklistStart(g, seeds);
    while pending != []
      invariant WorklistOk(g, seeds, visited, pending)
      invariant visited <= Universe(g, seeds)
      invariant forall path :: path in paths <==> path in roots || exists t | t in visited :: path in Reads(model, t)
      decreases Universe(g, seeds) - visited, |pending|
    {
      var target := pending[|pending| - 1];
      var rest := pending[..|pending| - 1];
      PopLast(pending);
      if target in visited {
        WorklistSkip(g, seeds, visited, pending, target, rest);
        pending := rest;
        continue;
      }
      DependenciesOf(model, target);
      ReachedInUniverse(g, seeds, target);
      var action := FindAction(model.actions, target);
      var next := if action.Some? then rest + action.value.dependsOn else rest;
      WorklistVisit(g, seeds, visited, pending, target, next);
      paths := paths + Reads(model, target);
      visited := visited + {target};
      pending := next;
      forall path ensures path in paths <==> path in roots || exists t | t in visited :: path in Reads(model, t) {
        if path in Reads(model, target) { assert target in visited; }
      }
    }
    WorklistDone(g, seeds, visited);
    Orders.TextOrder();
    Orders.CanonicalOf(paths, Orders.TextLess);
    r := Orders.Canonical(paths, Orders.TextLess);
    forall path ensures path in r <==> Watched(model, owners, seeds, path) {
      assert path in r <==> path in Orders.Elements(r);
      assert path in paths <==> path in Orders.Elements(paths);
    }
  }

  lemma ReachedInUniverse(g: Graph<TargetId>, seeds: seq<TargetId>, n: TargetId)
    requires ReachedFrom(g, seeds, n)
    ensures n in Universe(g, seeds)
  {
    var seed :| seed in seeds && Reaches(g, seed, n);
    ClosedHoldsReachable(g, Universe(g, seeds), seed, n);
  }

  // ---- what is watched, from the model alone ----

  /** The action at `i` is the one that runs for its target. */
  ghost predicate Runs(model: Model, i: nat) {
    i < |model.actions| && forall j | 0 <= j < i :: model.actions[j].target != model.actions[i].target
  }

  /** `path` is everything below the root of the first component with this id. */
  ghost predicate BelowRoot(model: Model, id: string, path: string) {
    exists i | 0 <= i < |model.components| ::
      && model.components[i].id == id && (forall j | 0 <= j < i :: model.components[j].id != id)
      && IsRootPattern(model.components[i].root, path)
  }

  // Two stars for the repository itself; else the root without the slashes at its end, a slash and
  // two stars.
  ghost predicate IsRootPattern(root: string, path: string) {
    if root == "." then path == "**"
    else exists n: nat :: && n <= |root| && (forall k | n <= k < |root| :: root[k] == '/')
                          && (n == 0 || root[n - 1] != '/') && path == root[..n] + "/**"
  }

  lemma {:induction false} TrimmedIs(root: string) returns (n: nat)
    ensures n <= |root| && TrimSlashes(root) == root[..n] && (n == 0 || root[n - 1] != '/')
    ensures forall k | n <= k < |root| :: root[k] == '/'
  {
    if root != "" && root[|root| - 1] == '/' {
      n := TrimmedIs(root[..|root| - 1]);
    } else {
      n := |root|;
      assert root[..n] == root;
    }
  }

  lemma RootPatternIs(root: string, path: string)
    ensures path == ComponentRootInput(root) <==> IsRootPattern(root, path)
  {
    var n := TrimmedIs(root);
    if root != "." && IsRootPattern(root, path) {
      var m: nat :| && m <= |root| && (forall k | m <= k < |root| :: root[k] == '/')
                    && (m == 0 || root[m - 1] != '/') && path == root[..m] + "/**";
      assert m == n;
    }
  }

  lemma RootOfIs(model: Model, id: string, path: string)
    ensures path in RootOf(model, id) <==> BelowRoot(model, id, path)
  {
    var found := FindComponent(model.components, id);
    if found.Some? { RootPatternIs(found.value.root, path); }
    if BelowRoot(model, id, path) {
      var i :| 0 <= i < |model.components| && model.components[i].id == id
               && (forall j | 0 <= j < i :: model.components[j].id != id)
               && IsRootPattern(model.components[i].root, path);
      assert model.components[i] in model.components;
    }
  }

  /** Running a target reads the inputs of its action and everything below its component. */
  lemma ReadsExactly(model: Model, target: TargetId, path: string)
    ensures path in Reads(model, target) <==>
            exists i: nat :: && Runs(model, i) && model.actions[i].target == target
                             && (path in model.actions[i].inputs || BelowRoot(model, target.component, path))
  {
    RootOfIs(model, target.component, path);
    var found := FindAction(model.actions, target);
    if path in Reads(model, target) {
      var i: nat :| i < |model.actions| && model.actions[i] == found.value
                    && forall j | 0 <= j < i :: model.actions[j].target != target;
      assert Runs(model, i);
    }
    if i: nat :| Runs(model, i) && model.actions[i].target == target
                 && (path in model.actions[i].inputs || BelowRoot(model, target.component, path)) {
      assert model.actions[i] in model.actions;
    }
  }

  /** The result is the same for any two ways of listing the seeds. */
  lemma WatchedIgnoresSeedOrder(model: Model, owners: seq<string>, seeds: seq<TargetId>, seeds': seq<TargetId>,
                                r: seq<string>, r': seq<string>)
    requires forall t :: t in seeds <==> t in seeds'
    requires Orders.Increasing(r, Orders.TextLess) && Orders.Increasing(r', Orders.TextLess)
    requires forall path :: path in r <==> Watched(model, owners, seeds, path)
    requires forall path :: path in r' <==> Watched(model, owners, seeds', path)
    ensures r == r'
  {
    forall path ensures path in r <==> path in r' {
      forall t ensures ReachedFrom(Dependencies(model), seeds, t) <==> ReachedFrom(Dependencies(model), seeds', t) {
      }
    }
    assert Orders.Elements(r) == Orders.Elements(r');
    Orders.TextOrder();
    Orders.IncreasingIsUnique(r, r', Orders.TextLess);
  }
}
