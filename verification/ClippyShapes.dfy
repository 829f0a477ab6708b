/** Which commands are recognised as generated, and what the verifier makes of each shape
    (crates/jig-bootstrap/src/clippy_policy.rs). */
module ClippyShapes {
  import opened Wrappers
  import opened Occurrences
  import opened NestedCommands
  import opened ClippyPolicy
  import opened ClippyLevels

  /** A command that a template has generated, before (`legacy`) or after all features and the lint
      were added: at the root, behind the check for a root manifest, or for each of a list of
      manifests. */
  ghost predicate IsGenerated(command: string, legacy: bool) {
    var root, nested := if legacy then LegacyCommand() else DefaultCommand(),
                        if legacy then LegacyNestedCommand() else NestedCommand();
    || command == root
    || command == OptionalCommand(root)
    || exists manifests: seq<string> ::
         && manifests != [] && AllPrintable(ListOf(manifests, nested))
         && command == Print(NESTED, ListOf(manifests, nested))
  }

  function ListOf(manifests: seq<string>, command: string): (r: seq<Entry>)
    ensures |r| == |manifests| && forall i | 0 <= i < |r| :: r[i] == Entry(manifests[i], command)
  {
    seq(|manifests|, i requires 0 <= i < |manifests| => Entry(manifests[i], command))
  }

  ghost predicate AllPrintable(entries: seq<Entry>) {
    forall entry | entry in entries :: Printable(NESTED, entry)
  }

  /** A parsed command is the printed list of its entries. */
  lemma ParsedExactly(command: string, entries: seq<Entry>)
    ensures Parse(NESTED, command) == Some(entries) <==>
            entries != [] && AllPrintable(entries) && command == Print(NESTED, entries)
  {
    NestedIsSound();
    PrintedParsesBack(NESTED, entries);
    if Parse(NESTED, command) == Some(entries) { ParsedPrintsBack(NESTED, command); }
  }

  lemma ManifestsOf(entries: seq<Entry>, command: string) returns (manifests: seq<string>)
    requires AllRun(entries, command)
    ensures entries == ListOf(manifests, command)
  {
    manifests := seq(|entries|, i requires 0 <= i < |entries| => entries[i].manifest);
    forall i | 0 <= i < |entries| ensures entries[i] == ListOf(manifests, command)[i] {
      assert entries[i] in entries;
    }
  }

  lemma NestedExactly(command: string, nested: string)
    ensures UpgradeVersion(command, nested).Some? <==>
            exists manifests: seq<string> ::
              manifests != [] && AllPrintable(ListOf(manifests, nested))
              && command == Print(NESTED, ListOf(manifests, nested))
  {
    if UpgradeVersion(command, nested).Some? {
      var entries := Parse(NESTED, command).value;
      ParsedExactly(command, entries);
      var manifests := ManifestsOf(entries, nested);
    }
    if manifests: seq<string> :| manifests != [] && AllPrintable(ListOf(manifests, nested))
                                 && command == Print(NESTED, ListOf(manifests, nested)) {
      ParsedExactly(command, ListOf(manifests, nested));
    }
  }

  /** The branches of a wrapper make up the wrapper. */
  lemma BranchesWrap(command: string)
    requires OptionalBranches(command).Some?
    ensures var (cargo, other) := OptionalBranches(command).value;
            command == OPTIONAL_PREFIX + cargo + OPTIONAL_ELSE + other + OPTIONAL_SUFFIX
  {
    var body := command[|OPTIONAL_PREFIX|..];
    var inner := body[..|body| - |OPTIONAL_SUFFIX|];
    SplitOnceFound(inner, OPTIONAL_ELSE);
    var (cargo, other) := OptionalBranches(command).value;
    assert command == OPTIONAL_PREFIX + (inner + OPTIONAL_SUFFIX);
    WrapRegroups(OPTIONAL_PREFIX, cargo, OPTIONAL_ELSE, other, OPTIONAL_SUFFIX);
  }

  lemma WrapRegroups(a: string, b: string, c: string, d: string, e: string)
    ensures a + ((b + c + d) + e) == a + b + c + d + e
  {
  }

  lemma OptionalExactly(command: string, root: string)
    requires !Contains(root, OPTIONAL_ELSE)
    ensures OptionalBranches(command) == Some((root, FALLBACK)) <==> command == OptionalCommand(root)
  {
    OptionalSplits(root);
    if OptionalBranches(command) == Some((root, FALLBACK)) { BranchesWrap(command); }
  }

  lemma RootsAreNotSplit()
    ensures !Contains(LegacyCommand(), OPTIONAL_ELSE) && !Contains(DefaultCommand(), OPTIONAL_ELSE)
  {
    CommandsStartWithCargo();
    PlainTextAvoids(LegacyCommand(), OPTIONAL_ELSE, 0);
    PlainTextAvoids(DefaultCommand(), OPTIONAL_ELSE, 0);
  }

  /** A command is recognised exactly when a template has generated it, and as the old version
      exactly when that lacked all features. */
  lemma ClassifiedExactly(command: string)
    ensures Classify(command).Some? && Classify(command).value.addsAllFeatures <==> IsGenerated(command, true)
    ensures Classify(command).Some? && !Classify(command).value.addsAllFeatures <==> IsGenerated(command, false)
  {
    CommandsDiffer();
    RootsAreNotSplit();
    OptionalExactly(command, LegacyCommand());
    OptionalExactly(command, DefaultCommand());
    NestedExactly(command, LegacyNestedCommand());
    NestedExactly(command, NestedCommand());
    ShapesExclude(command);
  }

  /** No command has two shapes. */
  lemma ShapesExclude(command: string)
    ensures RootAddsAllFeatures(command).Some? ==> OptionalBranches(command).None? && Parse(NESTED, command).None?
    ensures OptionalBranches(command).Some? ==> Parse(NESTED, command).None?
    ensures UpgradeVersion(command, LegacyNestedCommand()).Some? ==> UpgradeVersion(command, NestedCommand()).None?
  {
    FirstCharacter(command);
    CommandsDiffer();
    if UpgradeVersion(command, LegacyNestedCommand()).Some? {
      var entries := Parse(NESTED, command).value;
      ParsedExactly(command, entries);
      assert entries[0] in entries;
    }
  }

  /** The verifier looks through the two wrappers: the command that runs when there is a root
      manifest decides, and every command of a list must enforce the lint. */
  lemma EnforcesThroughWrappers(command: string, entries: seq<Entry>)
    ensures !Contains(command, OPTIONAL_ELSE) ==>
              (Enforces(OptionalCommand(command)) <==> DirectlyEnforces(command))
    ensures entries != [] && AllPrintable(entries) ==>
              (Enforces(Print(NESTED, entries)) <==> forall entry | entry in entries :: DirectlyEnforces(entry.command))
    ensures command != "" && command[0] != 'i' && command[0] != '(' ==>
              (Enforces(command) <==> DirectlyEnforces(command))
  {
    if !Contains(command, OPTIONAL_ELSE) { OptionalSplits(command); }
    if entries != [] && AllPrintable(entries) {
      ParsedExactly(Print(NESTED, entries), entries);
      FirstCharacter(Print(NESTED, entries));
    }
    FirstCharacter(command);
  }

  /** The commands from before the lint was added do not enforce it. */
  lemma OldCommandsDoNotEnforce()
    ensures !DirectlyEnforces(LegacyCommand()) && !DirectlyEnforces(LegacyNestedCommand())
  {
    OldRootDoesNotEnforce();
    OldNestedDoesNotEnforce();
  }

  lemma OldRootDoesNotEnforce()
    ensures !DirectlyEnforces(LegacyCommand())
  {
    WordsArePlain();
    OldTail(["--workspace", "--all-targets", "--locked"], LEGACY_WORDS);
  }

  lemma OldNestedDoesNotEnforce()
    ensures !DirectlyEnforces(LegacyNestedCommand())
  {
    WordsArePlain();
    OldTail(["--manifest-path", MANIFEST_VARIABLE, "--all-targets"], LEGACY_NESTED_WORDS);
  }

  lemma OldTail(front: seq<string>, words: seq<string>)
    requires words == ["cargo", "clippy"] + front + ["--"] + ["-D", "warnings"]
    requires forall word | word in words :: Plain(word)
    requires forall word | word in front :: |word| > 2
    ensures !DirectlyEnforces(Join(words))
  {
    var at := |front| + 2;
    assert words[..2] == ["cargo", "clippy"];
    assert words[..at] == ["cargo", "clippy"] + front && words[at + 1..] == ["-D", "warnings"];
    NotDynamic("-D");
    NotDynamic("warnings");
    LintArgumentsOf(words, at);
    assert |LINT| > 8 && |LINT_DASHED| > 8;
    SilentCommandIsNotEnforcing(Join(words));
  }
}
