/** Reconciling a repository's own commands with a freshly rendered configuration
    (crates/jig-bootstrap/src/runtime_config.rs). A table maps command keys to command texts. */
module CommandTable {
  import opened Wrappers
  import opened Folds

  type Table = map<string, string>

  /** What reconciliation consults. `staged` is the rendered table as it was when the contract was
      loaded, `topLevel` the commands outside the table that the contract falls back to. The
      recognisers of generated commands and the table of replacements are parameters. */
  datatype Config = Config(
    staged: Table,
    topLevel: Table,
    required: set<string>,
    preferred: set<string>,
    version: nat,
    retired: set<string>,
    perApp: Table,
    locKey: string,
    replacement: string -> Option<string>,
    blank: string -> bool,
    generatedLoc: string -> bool,
    generatedClippy: string -> bool,
    frontendDefault: (string, string) -> bool)

  datatype Entry = Entry(key: string, command: string)

  /** `command_for_key` succeeds. */
  predicate Resolves(cfg: Config, table: Table, key: string) {
    if key in table then !cfg.blank(table[key]) else key in cfg.topLevel && !cfg.blank(cfg.topLevel[key])
  }

  predicate Preferred(cfg: Config, table: Table, key: string) {
    key in cfg.preferred && key in table
  }

  predicate BothClippy(cfg: Config, table: Table, key: string, command: string) {
    cfg.generatedClippy(command) && key in table && cfg.generatedClippy(table[key])
  }

  predicate BothLoc(cfg: Config, table: Table, key: string, command: string) {
    key == cfg.locKey && cfg.generatedLoc(command) && key in table && cfg.generatedLoc(table[key])
  }

  /** A default that earlier templates generated for an app. */
  predicate RetiredDefault(cfg: Config, e: Entry) {
    e.key in cfg.perApp && cfg.perApp[e.key] == e.command && e.key !in cfg.required
  }

  /** The key under which an existing command enters the table, if it does. */
  function Target(cfg: Config, table: Table, e: Entry): Option<string> {
    if Preferred(cfg, table, e.key) || BothLoc(cfg, table, e.key, e.command) || BothClippy(cfg, table, e.key, e.command)
       || RetiredDefault(cfg, e)
    then None
    else if cfg.version >= 6 && cfg.replacement(e.key).Some? then
      var replacement := cfg.replacement(e.key).value;
      if Preferred(cfg, table, replacement) || BothClippy(cfg, table, replacement, e.command)
          || cfg.blank(e.command) then None
      else if replacement in cfg.required then Some(replacement)
      else if cfg.frontendDefault(e.key, e.command) then None
      else Some(e.key)
    else if e.key !in cfg.required then
      if (cfg.version >= 6 && e.key in cfg.retired) || cfg.frontendDefault(e.key, e.command) then None else Some(e.key)
    else if cfg.blank(e.command) && Resolves(cfg, cfg.staged, e.key) then None
    else Some(e.key)
  }

  function After(cfg: Config, table: Table, e: Entry): Table {
    var target := Target(cfg, table, e);
    if target.Some? then table[target.value := e.command] else table
  }

  function Reconciled(cfg: Config, table: Table, entries: seq<Entry>): Table {
    if entries == [] then table
    else After(cfg, Reconciled(cfg, table, entries[..|entries| - 1]), entries[|entries| - 1])
  }

  /** One turn of the loop. */
  method ReconcileEntry(cfg: Config, before: Table, e: Entry) returns (table: Table)
    ensures table == After(cfg, before, e)
  {
    table := before;
    var key, command := e.key, e.command;
    if key in cfg.preferred && key in table { return; }
    if key == cfg.locKey && cfg.generatedLoc(command) && key in table && cfg.generatedLoc(table[key]) { return; }
    if cfg.generatedClippy(command) && key in table && cfg.generatedClippy(table[key]) { return; }
    var isRetiredDefault := key in cfg.perApp && cfg.perApp[key] == command;
    if isRetiredDefault && key !in cfg.required { return; }
    if cfg.version >= 6 {
      var found := cfg.replacement(key);
      if found.Some? {
        table := ReplaceEntry(cfg, before, e, found.value);
        return;
      }
      if key in cfg.retired && key !in cfg.required { return; }
    }
    if cfg.frontendDefault(key, command) && key !in cfg.required { return; }
    if key in cfg.required && cfg.blank(command) && Resolves(cfg, cfg.staged, key) { return; }
    table := table[key := command];
  }

  /** A key that has a replacement: the command moves there, stays as a project's own, or goes. */
  method ReplaceEntry(cfg: Config, before: Table, e: Entry, replacement: string) returns (table: Table)
    ensures table ==
            if Preferred(cfg, before, replacement) || BothClippy(cfg, before, replacement, e.command)
                || cfg.blank(e.command)
            then before
            else if replacement in cfg.required then before[replacement := e.command]
            else if cfg.frontendDefault(e.key, e.command) then before
            else before[e.key := e.command]
  {
    table := before;
    if replacement in cfg.preferred && replacement in table { return; }
    if cfg.generatedClippy(e.command) && replacement in table && cfg.generatedClippy(table[replacement]) { return; }
    if replacement in cfg.required && !cfg.blank(e.command) {
      table := table[replacement := e.command];
    } else if replacement !in cfg.required && !cfg.blank(e.command) && !cfg.frontendDefault(e.key, e.command) {
      table := table[e.key := e.command];
    }
  }

  /** `reconcile_commands`; no existing table leaves the rendered one as it is. */
  method ReconcileCommands(cfg: Config, existing: Option<seq<Entry>>, rendered: Table) returns (table: Table)
    ensures table == if existing.Some? then Reconciled(cfg, rendered, existing.value) else rendered
  {
    table := rendered;
    if existing.None? { return; }
    var entries := existing.value;
    var i := 0;
    while i < |entries|
      invariant 0 <= i <= |entries| && table == Reconciled(cfg, rendered, entries[..i])
    {
      assert entries[..i + 1][..i] == entries[..i];
      table := ReconcileEntry(cfg, table, entries[i]);
      i := i + 1;
    }
    assert entries[..i] == entries;
  }

  // ---- what every reconciliation keeps ----

  /** No rendered key disappears. */
  lemma {:induction false} KeysOnlyGrow(cfg: Config, table: Table, entries: seq<Entry>)
    ensures table.Keys <= Reconciled(cfg, table, entries).Keys
  {
    if entries != [] { KeysOnlyGrow(cfg, table, entries[..|entries| - 1]); }
  }

  /** A preferred key that was rendered keeps its rendered command. */
  lemma {:induction false} PreferredKeepsItsCommand(cfg: Config, table: Table, entries: seq<Entry>, key: string)
    requires key in cfg.preferred && key in table
    ensures key in Reconciled(cfg, table, entries) && Reconciled(cfg, table, entries)[key] == table[key]
  {
    if entries != [] { PreferredKeepsItsCommand(cfg, table, entries[..|entries| - 1], key); }
  }

  /** A required command that the rendered contract could run can still be run: it never becomes
      blank, neither in the table nor by hiding a top-level command. */
  lemma {:induction false} RequiredStaysRunnable(cfg: Config, entries: seq<Entry>, key: string)
    requires key in cfg.required && Resolves(cfg, cfg.staged, key)
    ensures Resolves(cfg, Reconciled(cfg, cfg.staged, entries), key)
  {
    if entries != [] { RequiredStaysRunnable(cfg, entries[..|entries| - 1], key); }
  }

  /** Every command comes from the render, from the same key of the existing table, or from a key
      that it replaces. */
  lemma {:induction false} CommandsHaveAnOrigin(cfg: Config, table: Table, entries: seq<Entry>, key: string)
    requires key in Reconciled(cfg, table, entries)
    ensures var command := Reconciled(cfg, table, entries)[key];
            || (key in table && table[key] == command)
            || (exists e | e in entries ::
                  e.command == command && (e.key == key || cfg.replacement(e.key) == Some(key)))
  {
    if entries != [] {
      var front, last := entries[..|entries| - 1], entries[|entries| - 1];
      assert last in entries;
      if key in Reconciled(cfg, table, front) {
        CommandsHaveAnOrigin(cfg, table, front, key);
        assert forall e | e in front :: e in entries;
      }
    }
  }

  // ---- entries that compete ----

  /** The keys whose commands decide what happens to an entry, and where it may go. */
  function Touches(cfg: Config, e: Entry): set<string> {
    {e.key} + if cfg.replacement(e.key).Some? then {cfg.replacement(e.key).value} else {}
  }

  predicate Compete(cfg: Config, e: Entry, f: Entry) {
    Touches(cfg, e) * Touches(cfg, f) != {}
  }

  ghost predicate Agree(a: Table, b: Table, keys: set<string>) {
    forall k | k in keys :: (k in a <==> k in b) && (k in a ==> a[k] == b[k])
  }

  lemma TargetIsLocal(cfg: Config, a: Table, b: Table, e: Entry)
    requires Agree(a, b, Touches(cfg, e))
    ensures Target(cfg, a, e) == Target(cfg, b, e)
    ensures Target(cfg, a, e).Some? ==> Target(cfg, a, e).value in Touches(cfg, e)
  {
  }

  /** Keys that no entry touches stay as rendered. */
  lemma {:induction false} UntouchedStays(cfg: Config, table: Table, entries: seq<Entry>, keys: set<string>)
    requires forall e | e in entries :: Touches(cfg, e) * keys == {}
    ensures Agree(Reconciled(cfg, table, entries), table, keys)
  {
    if entries != [] {
      var front, last := entries[..|entries| - 1], entries[|entries| - 1];
      assert last in entries && forall e | e in front :: e in entries;
      UntouchedStays(cfg, table, front, keys);
      AfterStays(cfg, Reconciled(cfg, table, front), last, keys);
    }
  }

  /** An entry that competes with no other is judged against the rendered table alone, and its own
      keys end up as it leaves them. */
  lemma {:induction false} ClosedForm(cfg: Config, table: Table, entries: seq<Entry>, i: nat)
    requires i < |entries| && forall j | 0 <= j < |entries| && j != i :: !Compete(cfg, entries[i], entries[j])
    ensures Agree(Reconciled(cfg, table, entries), After(cfg, table, entries[i]), Touches(cfg, entries[i]))
  {
    var n := |entries| - 1;
    var front, last, e := entries[..n], entries[n], entries[i];
    var before := Reconciled(cfg, table, front);
    if i == n {
      forall f | f in front ensures Touches(cfg, f) * Touches(cfg, e) == {} {
        var j :| 0 <= j < n && front[j] == f;
        assert entries[j] == f && !Compete(cfg, e, entries[j]);
        assert Touches(cfg, f) * Touches(cfg, e) == Touches(cfg, e) * Touches(cfg, f);
      }
      UntouchedStays(cfg, table, front, Touches(cfg, e));
      TargetIsLocal(cfg, before, table, e);
    } else {
      ClosedForm(cfg, table, front, i);
      assert !Compete(cfg, e, entries[n]);
      assert Touches(cfg, last) * Touches(cfg, e) == Touches(cfg, e) * Touches(cfg, last);
      AfterStays(cfg, before, last, Touches(cfg, e));
    }
  }

  /** Two entries that do not compete can change places. */
  lemma SwapAfter(cfg: Config, table: Table, e: Entry, f: Entry)
    requires !Compete(cfg, e, f)
    ensures After(cfg, After(cfg, table, e), f) == After(cfg, After(cfg, table, f), e)
  {
    var te, tf := Target(cfg, table, e), Target(cfg, table, f);
    AfterStays(cfg, table, e, Touches(cfg, f));
    AfterStays(cfg, table, f, Touches(cfg, e));
    TargetIsLocal(cfg, table, table, e);
    TargetIsLocal(cfg, table, table, f);
    TargetIsLocal(cfg, After(cfg, table, e), table, f);
    TargetIsLocal(cfg, After(cfg, table, f), table, e);
    if te.Some? && tf.Some? {
      assert te.value in Touches(cfg, e) && tf.value in Touches(cfg, f);
      assert table[te.value := e.command][tf.value := f.command] == table[tf.value := f.command][te.value := e.command];
    }
  }

  /** An entry leaves alone what it does not touch. */
  lemma AfterStays(cfg: Config, table: Table, e: Entry, keys: set<string>)
    requires Touches(cfg, e) * keys == {}
    ensures Agree(After(cfg, table, e), table, keys)
  {
    TargetIsLocal(cfg, table, table, e);
    forall k | k in keys ensures k !in Touches(cfg, e) {
      assert k !in Touches(cfg, e) * keys;
    }
  }

  lemma AftersCommute(cfg: Config)
    ensures Commutes((t: Table, e: Entry) => After(cfg, t, e), (e, f) => Compete(cfg, e, f))
  {
    forall e, f ensures Compete(cfg, e, f) == Compete(cfg, f, e) {
      assert Touches(cfg, e) * Touches(cfg, f) == Touches(cfg, f) * Touches(cfg, e);
    }
    forall t, e, f | !Compete(cfg, e, f) ensures After(cfg, After(cfg, t, e), f) == After(cfg, After(cfg, t, f), e) {
      SwapAfter(cfg, t, e, f);
    }
  }

  /** Reconciliation is a fold over the entries. */
  lemma {:induction false} ReconciledIsAFold(cfg: Config, table: Table, entries: seq<Entry>)
    ensures Reconciled(cfg, table, entries) == Fold((t: Table, e: Entry) => After(cfg, t, e), table, entries)
  {
    if entries != [] { ReconciledIsAFold(cfg, table, entries[..|entries| - 1]); }
  }

  /** So the order of the existing table matters only among entries that compete. */
  lemma OrderMattersOnlyInContests(cfg: Config, table: Table, entries: seq<Entry>, entries': seq<Entry>)
    requires SameContests((e, f) => Compete(cfg, e, f), entries, entries')
    ensures Reconciled(cfg, table, entries) == Reconciled(cfg, table, entries')
  {
    AftersCommute(cfg);
    ReconciledIsAFold(cfg, table, entries);
    ReconciledIsAFold(cfg, table, entries');
    OrderMattersOnlyAmongRivals((t: Table, e: Entry) => After(cfg, t, e), (e, f) => Compete(cfg, e, f), table,
                                entries, entries');
  }

  // ---- whose command wins ----

  /** A generated Clippy command of an earlier render never displaces the one rendered now. */
  lemma {:induction false} GeneratedClippyIsRefreshed(cfg: Config, table: Table, entries: seq<Entry>, key: string)
    requires key in table && cfg.generatedClippy(table[key])
    requires forall e | e in entries && key in Touches(cfg, e) :: cfg.generatedClippy(e.command)
    ensures key in Reconciled(cfg, table, entries) && Reconciled(cfg, table, entries)[key] == table[key]
  {
    if entries != [] {
      var front, last := entries[..|entries| - 1], entries[|entries| - 1];
      assert last in entries && forall e | e in front :: e in entries;
      GeneratedClippyIsRefreshed(cfg, table, front, key);
    }
  }

  /** Nor does a generated line-count command the one rendered now, under its key. */
  lemma {:induction false} GeneratedLocIsRefreshed(cfg: Config, table: Table, entries: seq<Entry>)
    requires cfg.locKey in table && cfg.generatedLoc(table[cfg.locKey])
    requires forall e | e in entries && cfg.locKey in Touches(cfg, e) ::
               e.key == cfg.locKey && cfg.generatedLoc(e.command)
    ensures cfg.locKey in Reconciled(cfg, table, entries)
    ensures Reconciled(cfg, table, entries)[cfg.locKey] == table[cfg.locKey]
  {
    if entries != [] {
      var front, last := entries[..|entries| - 1], entries[|entries| - 1];
      assert last in entries && forall e | e in front :: e in entries;
      GeneratedLocIsRefreshed(cfg, table, front);
    }
  }

  /** A default that templates generated, for an app or for the frontend, does not come back under a
      key that the contract does not require. */
  lemma {:induction false} DefaultsDoNotReturn(cfg: Config, table: Table, entries: seq<Entry>, key: string)
    requires key !in table && key !in cfg.required
    requires forall e | e in entries && e.key == key ::
               cfg.frontendDefault(key, e.command) || (key in cfg.perApp && cfg.perApp[key] == e.command)
    ensures key !in Reconciled(cfg, table, entries)
  {
    if entries != [] {
      var front, last := entries[..|entries| - 1], entries[|entries| - 1];
      assert last in entries && forall e | e in front :: e in entries;
      DefaultsDoNotReturn(cfg, table, front, key);
    }
  }

  /** A command that no render produced. */
  predicate OwnCommand(cfg: Config, e: Entry) {
    && !cfg.blank(e.command) && !cfg.generatedLoc(e.command) && !cfg.generatedClippy(e.command)
    && !cfg.frontendDefault(e.key, e.command) && !(e.key in cfg.perApp && cfg.perApp[e.key] == e.command)
  }

  /** Where an own command belongs: at the key that replaces its own, if the contract requires that
      one, and else at its own. */
  function Destination(cfg: Config, e: Entry): string {
    if cfg.version >= 6 && cfg.replacement(e.key).Some? && cfg.replacement(e.key).value in cfg.required
    then cfg.replacement(e.key).value else e.key
  }

  /** It does not enter: a rendered command is preferred to it, or its key is retired. */
  predicate Barred(cfg: Config, table: Table, e: Entry) {
    || Preferred(cfg, table, e.key)
    || (cfg.version >= 6 && cfg.replacement(e.key).Some? && Preferred(cfg, table, cfg.replacement(e.key).value))
    || (cfg.version >= 6 && cfg.replacement(e.key).None? && e.key in cfg.retired && e.key !in cfg.required)
  }

  /** An own command that competes with no other entry is at its destination, or was barred and
      leaves its keys as rendered. */
  lemma {:induction false} OwnCommandWins(cfg: Config, table: Table, entries: seq<Entry>, i: nat)
    requires i < |entries| && forall j | 0 <= j < |entries| && j != i :: !Compete(cfg, entries[i], entries[j])
    requires OwnCommand(cfg, entries[i])
    ensures var e, r := entries[i], Reconciled(cfg, table, entries);
            if Barred(cfg, table, e) then Agree(r, table, Touches(cfg, e))
            else Destination(cfg, e) in r && r[Destination(cfg, e)] == e.command
  {
    ClosedForm(cfg, table, entries, i);
    TargetIsLocal(cfg, table, table, entries[i]);
  }

  // ---- contests for one key ----

  /** The key that the turn of entry `j` writes, if it writes. */
  function Turn(cfg: Config, table: Table, entries: seq<Entry>, j: nat): Option<string>
    requires j < |entries|
  {
    Target(cfg, Reconciled(cfg, table, entries[..j]), entries[j])
  }

  /** Turn `i` is the last of the first `n` that writes `key`. */
  ghost predicate IsLastTurn(cfg: Config, table: Table, entries: seq<Entry>, key: string, i: nat, n: nat)
    requires i < n <= |entries|
  {
    && Turn(cfg, table, entries, i) == Some(key)
    && forall j: nat | i < j < n :: Turn(cfg, table, entries, j) != Some(key)
  }

  ghost predicate NoTurn(cfg: Config, table: Table, entries: seq<Entry>, key: string, n: nat)
    requires n <= |entries|
  {
    forall j: nat | j < n :: Turn(cfg, table, entries, j) != Some(key)
  }

  lemma {:induction false} LastTurnStays(cfg: Config, table: Table, entries: seq<Entry>, key: string, i: nat, n: nat)
    requires i < n <= |entries| && IsLastTurn(cfg, table, entries, key, i, n)
    ensures var r := Reconciled(cfg, table, entries[..n]); key in r && r[key] == entries[i].command
  {
    PrefixTurn(cfg, table, entries, n - 1);
    if n > i + 1 {
      LastTurnStays(cfg, table, entries, key, i, n - 1);
      assert Turn(cfg, table, entries, n - 1) != Some(key);
    }
  }

  lemma {:induction false} NoTurnLeaves(cfg: Config, table: Table, entries: seq<Entry>, key: string, n: nat)
    requires n <= |entries| && NoTurn(cfg, table, entries, key, n)
    ensures Agree(Reconciled(cfg, table, entries[..n]), table, {key})
  {
    if n > 0 {
      PrefixTurn(cfg, table, entries, n - 1);
      NoTurnLeaves(cfg, table, entries, key, n - 1);
      assert Turn(cfg, table, entries, n - 1) != Some(key);
    }
  }

  lemma {:induction false} SomeLastTurn(cfg: Config, table: Table, entries: seq<Entry>, key: string, n: nat)
    requires n <= |entries|
    ensures NoTurn(cfg, table, entries, key, n) ||
            exists i: nat | i < n :: IsLastTurn(cfg, table, entries, key, i, n)
  {
    if n > 0 && Turn(cfg, table, entries, n - 1) == Some(key) {
      assert IsLastTurn(cfg, table, entries, key, n - 1, n);
    } else if n > 0 {
      var m := n - 1;
      SomeLastTurn(cfg, table, entries, key, m);
      if i: nat :| i < m && IsLastTurn(cfg, table, entries, key, i, m) {
        assert IsLastTurn(cfg, table, entries, key, i, n);
      }
    }
  }

  /** The command of a key is that of the last entry whose turn writes it; when no turn does, the
      key is as rendered. */
  lemma LastTurnDecides(cfg: Config, table: Table, entries: seq<Entry>, key: string) returns (last: Option<nat>)
    ensures last.Some? ==> last.value < |entries| && IsLastTurn(cfg, table, entries, key, last.value, |entries|)
    ensures last.None? ==> NoTurn(cfg, table, entries, key, |entries|)
    ensures var r := Reconciled(cfg, table, entries);
            if last.Some? then key in r && r[key] == entries[last.value].command else Agree(r, table, {key})
  {
    var n := |entries|;
    assert entries[..n] == entries;
    SomeLastTurn(cfg, table, entries, key, n);
    if i: nat :| i < n && IsLastTurn(cfg, table, entries, key, i, n) {
      LastTurnStays(cfg, table, entries, key, i, n);
      last := Some(i);
    } else {
      NoTurnLeaves(cfg, table, entries, key, n);
      last := None;
    }
  }

  lemma PrefixTurn(cfg: Config, table: Table, entries: seq<Entry>, n: nat)
    requires n < |entries|
    ensures Reconciled(cfg, table, entries[..n + 1]) == After(cfg, Reconciled(cfg, table, entries[..n]), entries[n])
  {
    assert entries[..n + 1][..n] == entries[..n];
  }

  /** A table has each key once. */
  ghost predicate DistinctKeys(entries: seq<Entry>) {
    forall i, j | 0 <= i < j < |entries| :: entries[i].key != entries[j].key
  }

  /** A key that replaces another is not itself replaced. */
  ghost predicate Unchained(cfg: Config) {
    forall k | cfg.replacement(k).Some? :: cfg.replacement(cfg.replacement(k).value).None?
  }

  /** Entry `f` would write `key` in the rendered table with `command` there. */
  predicate Claims(cfg: Config, table: Table, key: string, command: string, f: Entry) {
    Target(cfg, table[key := command], f) == Some(key)
  }

  /** The command of the last entry that claims the key, `command` if none does. */
  function LastClaim(cfg: Config, table: Table, key: string, command: string, entries: seq<Entry>): string {
    if entries == [] then command
    else
      var f := entries[|entries| - 1];
      if Claims(cfg, table, key, command, f) then f.command
      else LastClaim(cfg, table, key, command, entries[..|entries| - 1])
  }

  /** Nobody but its own entry writes a key that is replaced. */
  lemma {:induction false} ReplacedKeyStays(cfg: Config, table: Table, entries: seq<Entry>, n: nat, m: nat)
    requires m <= n < |entries| && DistinctKeys(entries) && Unchained(cfg) && cfg.replacement(entries[n].key).Some?
    ensures Agree(Reconciled(cfg, table, entries[..m]), table, {entries[n].key})
  {
    if m > 0 {
      ReplacedKeyStays(cfg, table, entries, n, m - 1);
      PrefixTurn(cfg, table, entries, m - 1);
      OthersLeave(cfg, Reconciled(cfg, table, entries[..m - 1]), entries[m - 1], entries[n].key);
    }
  }

  lemma OthersLeave(cfg: Config, table: Table, g: Entry, key: string)
    requires Unchained(cfg) && cfg.replacement(key).Some? && g.key != key
    ensures Agree(After(cfg, table, g), table, {key})
  {
    assert key !in Touches(cfg, g);
    AfterStays(cfg, table, g, {key});
  }

  /** Once an own command is at the key, a later turn writes there only what claims the key, and all
      that claims it, but for a generated command where a generated one has taken the place. */
  lemma LaterTurn(cfg: Config, table: Table, entries: seq<Entry>, i: nat, key: string, n: nat)
    requires i < n < |entries| && DistinctKeys(entries) && Unchained(cfg)
    requires OwnCommand(cfg, entries[i]) && key in Touches(cfg, entries[i])
    requires key in Reconciled(cfg, table, entries[..n])
    ensures var f, held, claimed := entries[n], Reconciled(cfg, table, entries[..n])[key],
                                    Claims(cfg, table, key, entries[i].command, entries[n]);
            && (Turn(cfg, table, entries, n) == Some(key) ==> claimed)
            && (claimed && Turn(cfg, table, entries, n) != Some(key) ==>
                  f.command != entries[i].command && held != entries[i].command)
  {
    var t, e, f := Reconciled(cfg, table, entries[..n]), entries[i], entries[n];
    var t' := table[key := e.command];
    TargetIsLocal(cfg, t, t, f);
    TargetIsLocal(cfg, t', t', f);
    assert e.key != f.key;
    if cfg.replacement(f.key).Some? { ReplacedKeyStays(cfg, table, entries, n, n); }
  }

  /** The contest for `key` after the first `n` entries: the own command that entered at turn `i` is
      there exactly when it has the last claim so far. */
  ghost predicate Contested(cfg: Config, table: Table, entries: seq<Entry>, i: nat, key: string, n: nat)
    requires i < n <= |entries|
  {
    var r, command := Reconciled(cfg, table, entries[..n]), entries[i].command;
    key in r && (r[key] == command <==> LastClaim(cfg, table, key, command, entries[i + 1..n]) == command)
  }

  lemma ContestGoesOn(cfg: Config, table: Table, entries: seq<Entry>, i: nat, key: string, n: nat)
    requires i < n < |entries| && DistinctKeys(entries) && Unchained(cfg)
    requires OwnCommand(cfg, entries[i]) && key in Touches(cfg, entries[i])
    requires Contested(cfg, table, entries, i, key, n)
    ensures Contested(cfg, table, entries, i, key, n + 1)
  {
    var command, later, f := entries[i].command, entries[i + 1..n], entries[n];
    var before, after := Reconciled(cfg, table, entries[..n]), Reconciled(cfg, table, entries[..n + 1]);
    PrefixTurn(cfg, table, entries, n);
    KeyAfter(cfg, before, f, key);
    LaterTurn(cfg, table, entries, i, key, n);
    LastClaimStep(cfg, table, key, command, later, f);
    assert entries[i + 1..n + 1] == later + [f];
    assert after[key] == if Turn(cfg, table, entries, n) == Some(key) then f.command else before[key];
  }

  lemma KeyAfter(cfg: Config, table: Table, f: Entry, key: string)
    requires key in table
    ensures key in After(cfg, table, f)
    ensures After(cfg, table, f)[key] == if Target(cfg, table, f) == Some(key) then f.command else table[key]
  {
  }

  lemma LastClaimStep(cfg: Config, table: Table, key: string, command: string, entries: seq<Entry>, f: Entry)
    ensures LastClaim(cfg, table, key, command, entries + [f]) ==
            if Claims(cfg, table, key, command, f) then f.command else LastClaim(cfg, table, key, command, entries)
  {
    assert (entries + [f])[..|entries|] == entries;
  }

  lemma {:induction false} ContestAt(cfg: Config, table: Table, entries: seq<Entry>, i: nat, key: string, n: nat)
    requires i < n <= |entries| && DistinctKeys(entries) && Unchained(cfg)
    requires OwnCommand(cfg, entries[i]) && Turn(cfg, table, entries, i) == Some(key)
    ensures Contested(cfg, table, entries, i, key, n)
  {
    if n == i + 1 {
      PrefixTurn(cfg, table, entries, i);
      assert entries[i + 1..n] == [];
    } else {
      ContestAt(cfg, table, entries, i, key, n - 1);
      var before := Reconciled(cfg, table, entries[..i]);
      TargetIsLocal(cfg, before, before, entries[i]);
      ContestGoesOn(cfg, table, entries, i, key, n - 1);
    }
  }

  /** Whatever else the table holds: an own command that is not barred at its turn is at its
      destination in the end exactly when the last later entry that claims that key, if any, has the
      same command. */
  lemma OwnCommandStays(cfg: Config, table: Table, entries: seq<Entry>, i: nat)
    requires i < |entries| && DistinctKeys(entries) && Unchained(cfg) && OwnCommand(cfg, entries[i])
    ensures var e, r := entries[i], Reconciled(cfg, table, entries);
            var key := Destination(cfg, e);
            if Barred(cfg, Reconciled(cfg, table, entries[..i]), e) then Turn(cfg, table, entries, i).None?
            else
              && Turn(cfg, table, entries, i) == Some(key) && key in r
              && (r[key] == e.command <==> LastClaim(cfg, table, key, e.command, entries[i + 1..]) == e.command)
  {
    if !Barred(cfg, Reconciled(cfg, table, entries[..i]), entries[i]) {
      ContestAt(cfg, table, entries, i, Destination(cfg, entries[i]), |entries|);
      assert entries[..|entries|] == entries && entries[i + 1..|entries|] == entries[i + 1..];
    }
  }

  /** Of two own commands with one destination the later one wins: two whose keys are replaced by
      one required key, or one at that key already and one that moves there. */
  lemma LaterRivalWins(cfg: Config, table: Table, entries: seq<Entry>, i: nat, j: nat)
    requires i < j < |entries| && DistinctKeys(entries) && Unchained(cfg)
    requires OwnCommand(cfg, entries[i]) && OwnCommand(cfg, entries[j])
    requires var e, f := entries[i], entries[j];
             && Destination(cfg, e) == Destination(cfg, f) && e.command != f.command
             && !Barred(cfg, Reconciled(cfg, table, entries[..i]), e)
             && !Barred(cfg, Reconciled(cfg, table, entries[..j]), f)
             && forall g | g in entries[j + 1..] ::
                  !Claims(cfg, table, Destination(cfg, f), f.command, g)
    ensures var key, r := Destination(cfg, entries[j]), Reconciled(cfg, table, entries);
            key in r && r[key] == entries[j].command && r[key] != entries[i].command
  {
    OwnCommandStays(cfg, table, entries, j);
    UnclaimedStays(cfg, table, Destination(cfg, entries[j]), entries[j].command, entries[j + 1..]);
  }

  lemma {:induction false} UnclaimedStays(cfg: Config, table: Table, key: string, command: string,
                                          entries: seq<Entry>)
    requires forall g | g in entries :: !Claims(cfg, table, key, command, g)
    ensures LastClaim(cfg, table, key, command, entries) == command
  {
    if entries != [] {
      assert entries[|entries| - 1] in entries;
      UnclaimedStays(cfg, table, key, command, entries[..|entries| - 1]);
    }
  }

  const CURRENT_KEY := "api_test_command"
  const EARLIER_KEY := "rust_test_command"

  /** A contract that requires the test command under its current name, and an existing table with
      both names, each with a command of its own. */
  function Current(): Config {
    Config(map[], map[], {CURRENT_KEY}, {}, 6, {}, map[], "", k => if k == EARLIER_KEY then Some(CURRENT_KEY) else None,
           command => command == "", command => false, command => false, (key, command) => false)
  }

  const BOTH := [Entry(CURRENT_KEY, "new"), Entry(EARLIER_KEY, "old")]

  /** There the command under the current name is lost to the one under the earlier name. */
  lemma CurrentKeyIsDisplaced()
    ensures DistinctKeys(BOTH) && Unchained(Current())
    ensures OwnCommand(Current(), BOTH[0]) && OwnCommand(Current(), BOTH[1])
    ensures Reconciled(Current(), map[], BOTH) == map[CURRENT_KEY := "old"]
  {
    assert |EARLIER_KEY| != |CURRENT_KEY|;
    var none: Table, first := map[], map[CURRENT_KEY := "new"];
    assert BOTH[..1] == [BOTH[0]] && [BOTH[0]][..0] == [];
    assert Target(Current(), none, BOTH[0]) == Some(CURRENT_KEY);
    assert Reconciled(Current(), none, [BOTH[0]]) == After(Current(), none, BOTH[0]) == first;
    assert Target(Current(), first, BOTH[1]) == Some(CURRENT_KEY);
  }
}
