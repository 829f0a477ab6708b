/** Which Clippy commands Jig generated, what it upgrades them to, and whether a command
    enforces the module-files lint (crates/jig-bootstrap/src/clippy_policy.rs). */
module ClippyPolicy {
  import opened Wrappers
  import opened Occurrences
  import opened NestedCommands

  // ---- words ----

  predicate Blank(c: char) {
    c == ' ' || c == '\t' || c == '\n' || c == '\r' || c == 12 as char
  }

  /** Letters of the generated commands; none of them is blank or special to the shell scan. */
  predicate PlainChar(c: char) {
    'a' <= c <= 'z' || 'A' <= c <= 'Z' || c == '-' || c == ':' || c == '_' || c == '"' || c == '$'
  }

  predicate Plain(word: string) {
    0 < |word| && forall k | 0 <= k < |word| :: PlainChar(word[k])
  }

  function WordLength(text: string): (n: nat)
    ensures n <= |text| && (forall k | 0 <= k < n :: !Blank(text[k]))
    ensures n < |text| ==> Blank(text[n])
  {
    if text == "" || Blank(text[0]) then 0 else 1 + WordLength(text[1..])
  }

  /** `split_ascii_whitespace`. */
  function Tokens(text: string): seq<string>
    decreases |text|
  {
    if text == "" then []
    else if Blank(text[0]) then Tokens(text[1..])
    else [text[..WordLength(text)]] + Tokens(text[WordLength(text)..])
  }

  function Join(words: seq<string>): string {
    if words == [] then "" else if |words| == 1 then words[0] else words[0] + " " + Join(words[1..])
  }

  /** Not empty, and without a blank. */
  predicate IsWord(word: string) {
    word != "" && forall k | 0 <= k < |word| :: !Blank(word[k])
  }

  lemma {:induction false} TokensAreWords(text: string)
    ensures forall word | word in Tokens(text) :: IsWord(word)
    decreases |text|
  {
    if text != "" {
      if Blank(text[0]) { TokensAreWords(text[1..]); } else { TokensAreWords(text[WordLength(text)..]); }
    }
  }

  /** Splitting undoes joining exactly for words. */
  lemma TokensOfJoinExactly(words: seq<string>)
    ensures Tokens(Join(words)) == words <==> forall word | word in words :: IsWord(word)
  {
    if forall word | word in words :: IsWord(word) { TokensOfJoin(words); }
    TokensAreWords(Join(words));
  }

  /** A blank ends a word, whatever surrounds it. */
  lemma {:induction false} TokensSplitAtBlanks(a: string, blank: char, b: string)
    requires Blank(blank)
    ensures Tokens(a + [blank] + b) == Tokens(a) + Tokens(b)
    decreases |a|
  {
    var text, rest := a + [blank] + b, [blank] + b;
    if a == "" {
      assert text[1..] == b;
    } else if Blank(a[0]) {
      assert text[1..] == a[1..] + [blank] + b;
      TokensSplitAtBlanks(a[1..], blank, b);
    } else {
      WordEndsAtBlank(a, rest);
      assert text == a + rest;
      var n := WordLength(a);
      assert text[..n] == a[..n] && text[n..] == a[n..] + [blank] + b;
      TokensSplitAtBlanks(a[n..], blank, b);
    }
  }

  lemma {:induction false} WordEndsAtBlank(a: string, rest: string)
    requires rest != "" && Blank(rest[0])
    ensures WordLength(a + rest) == WordLength(a)
  {
    if a != "" && !Blank(a[0]) {
      assert (a + rest)[1..] == a[1..] + rest;
      WordEndsAtBlank(a[1..], rest);
    }
  }

  lemma {:induction false} TokensOfJoin(words: seq<string>)
    requires forall word | word in words :: IsWord(word)
    ensures Tokens(Join(words)) == words
  {
    if |words| > 0 {
      assert words[0] in words;
      TokensOfJoin(words[1..]);
      var text := Join(words);
      WordEnds(words[0], text);
      if |words| == 1 {
        assert text[|words[0]|..] == "";
      } else {
        assert text[|words[0]|..] == " " + Join(words[1..]);
        assert (" " + Join(words[1..]))[1..] == Join(words[1..]);
      }
      assert text[..|words[0]|] == words[0];
      assert [words[0]] + words[1..] == words;
    }
  }

  lemma WordEnds(word: string, text: string)
    requires IsWord(word) && HasPrefix(text, word)
    requires |text| == |word| || text[|word|] == ' '
    ensures WordLength(text) == |word|
  {
    assert forall k | 0 <= k < |word| :: text[k] == word[k];
    assert forall k | 0 <= k < |word| :: !Blank(word[k]);
  }

  /** Nothing but plain characters and single spaces. */
  predicate PlainText(text: string) {
    forall k | 0 <= k < |text| :: PlainChar(text[k]) || text[k] == ' '
  }

  lemma {:induction false} JoinIsPlain(words: seq<string>)
    requires forall word | word in words :: Plain(word)
    ensures PlainText(Join(words))
    ensures words != [] && words[0] != "" ==> |Join(words)| > 0 && Join(words)[0] == words[0][0]
  {
    if |words| > 0 {
      assert words[0] in words;
      JoinIsPlain(words[1..]);
    }
  }

  // ---- the generated commands ----

  const LINT := "clippy::mod_module_files"
  const LINT_DASHED := "clippy::mod-module-files"
  const MANIFEST_VARIABLE := "\"$jig_manifest\""

  const DEFAULT_WORDS := ["cargo", "clippy", "--workspace", "--all-targets", "--all-features", "--locked",
                          "--", "-D", "warnings", "-D", LINT]
  const LEGACY_WORDS := ["cargo", "clippy", "--workspace", "--all-targets", "--locked", "--", "-D", "warnings"]
  const NESTED_WORDS := ["cargo", "clippy", "--manifest-path", MANIFEST_VARIABLE, "--all-targets", "--all-features",
                         "--", "-D", "warnings", "-D", LINT]
  const LEGACY_NESTED_WORDS := ["cargo", "clippy", "--manifest-path", MANIFEST_VARIABLE, "--all-targets",
                                "--", "-D", "warnings"]

  /** The four generated cargo commands: their words, separated by single spaces. */
  function DefaultCommand(): string { Join(DEFAULT_WORDS) }
  function LegacyCommand(): string { Join(LEGACY_WORDS) }
  function NestedCommand(): string { Join(NESTED_WORDS) }
  function LegacyNestedCommand(): string { Join(LEGACY_NESTED_WORDS) }

  lemma OptionWordsArePlain()
    ensures Plain("cargo") && Plain("clippy") && Plain("--workspace") && Plain("--all-targets")
    ensures Plain("--all-features") && Plain("--locked") && Plain("--") && Plain("-D") && Plain("warnings")
  {
  }

  lemma NamesArePlain()
    ensures Plain(LINT) && Plain("--manifest-path") && Plain(MANIFEST_VARIABLE)
  {
  }

  lemma WordsArePlain()
    ensures forall word | word in DEFAULT_WORDS :: Plain(word)
    ensures forall word | word in LEGACY_WORDS :: Plain(word)
    ensures forall word | word in NESTED_WORDS :: Plain(word)
    ensures forall word | word in LEGACY_NESTED_WORDS :: Plain(word)
  {
    OptionWordsArePlain();
    NamesArePlain();
  }

  // ---- classification and upgrade ----

  const OPTIONAL_PREFIX := "if [ -f Cargo.toml ]; then "
  const OPTIONAL_ELSE := "; else "
  const OPTIONAL_SUFFIX := "; fi"

  function OptionalCommand(command: string): string {
    OPTIONAL_PREFIX + command + OPTIONAL_ELSE + FALLBACK + OPTIONAL_SUFFIX
  }

  /** The two branches of an optional-cargo wrapper. */
  function OptionalBranches(command: string): Option<(string, string)> {
    if !HasPrefix(command, OPTIONAL_PREFIX) then None
    else
      var body := command[|OPTIONAL_PREFIX|..];
      if !HasSuffix(body, OPTIONAL_SUFFIX) then None
      else SplitOnce(body[..|body| - |OPTIONAL_SUFFIX|], OPTIONAL_ELSE)
  }

  datatype Shape = Root | OptionalRoot | PerManifest(command: string)
  datatype Generated = Generated(shape: Shape, addsAllFeatures: bool)

  function RootAddsAllFeatures(command: string): Option<bool> {
    if command == LegacyCommand() then Some(true)
    else if command == DefaultCommand() then Some(false)
    else None
  }

  /** The same manifests, all with one command. */
  function RetargetTo(entries: seq<Entry>, command: string): (r: seq<Entry>)
    ensures |r| == |entries|
    ensures forall i | 0 <= i < |r| :: r[i] == Entry(entries[i].manifest, command)
  {
    seq(|entries|, i requires 0 <= i < |entries| => Entry(entries[i].manifest, command))
  }

  function Retarget(entries: seq<Entry>): seq<Entry> {
    RetargetTo(entries, NestedCommand())
  }

  predicate AllRun(entries: seq<Entry>, command: string) {
    forall entry | entry in entries :: entry.command == command
  }

  function UpgradeVersion(command: string, generated: string): Option<string> {
    var entries := Parse(NESTED, command);
    if entries.None? || !AllRun(entries.value, generated) then None
    else Some(Print(NESTED, Retarget(entries.value)))
  }

  /** The source's string-building loop. */
  method UpgradeNestedCommandVersion(command: string, generated: string) returns (r: Option<string>)
    ensures r == UpgradeVersion(command, generated)
  {
    NestedIsSound();
    var entries := NestedCommandEntries(NESTED, command);
    if entries.None? || exists entry | entry in entries.value :: entry.command != generated {
      return None;
    }
    var upgraded := PrintRetargeted(NESTED, entries.value, NestedCommand());
    r := Some(upgraded);
  }

  method PrintRetargeted(g: Grammar, entries: seq<Entry>, command: string) returns (upgraded: string)
    ensures upgraded == Print(g, RetargetTo(entries, command))
  {
    ghost var targets := RetargetTo(entries, command);
    upgraded := g.commandPrefix;
    assert targets[0..] == targets;
    var i := 0;
    while i < |entries|
      invariant 0 <= i <= |entries| && upgraded + PrintEntries(g, targets[i..]) == Print(g, targets)
    {
      var text := g.entryPrefix + entries[i].manifest + g.separator + command + g.entrySuffix;
      PrintEntriesStep(g, targets, i);
      Regroup(upgraded, text, "", PrintEntries(g, targets[i + 1..]));
      upgraded := upgraded + text;
      i := i + 1;
    }
    assert targets[i..] == [];
    upgraded := upgraded + g.commandSuffix;
  }

  lemma PrintEntriesStep(g: Grammar, entries: seq<Entry>, i: nat)
    requires i < |entries|
    ensures PrintEntries(g, entries[i..]) == PrintEntry(g, entries[i]) + PrintEntries(g, entries[i + 1..])
  {
    assert entries[i..][1..] == entries[i + 1..];
  }

  function Classify(command: string): Option<Generated> {
    var root := RootAddsAllFeatures(command);
    if root.Some? then Some(Generated(Root, root.value))
    else
      var branches := OptionalBranches(command);
      var optional := if branches.Some? && branches.value.1 == FALLBACK then RootAddsAllFeatures(branches.value.0)
          else None;
      if optional.Some? then Some(Generated(OptionalRoot, optional.value))
      else
        var legacy := UpgradeVersion(command, LegacyNestedCommand());
        var current := UpgradeVersion(command, NestedCommand());
        if legacy.Some? then Some(Generated(PerManifest(legacy.value), true))
        else if current.Some? then Some(Generated(PerManifest(current.value), false))
        else None
  }

  function Upgraded(generated: Generated): string {
    match generated.shape
    case Root => DefaultCommand()
    case OptionalRoot => OptionalCommand(DefaultCommand())
    case PerManifest(command) => command
  }

  function Manifests(command: string): seq<string> {
    var entries := Parse(NESTED, command);
    if entries.None? then []
    else seq(|entries.value|, i requires 0 <= i < |entries.value| => entries.value[i].manifest)
  }

  // ---- facts about the generated commands ----

  lemma CommandsDiffer()
    ensures DefaultCommand() != LegacyCommand() && NestedCommand() != LegacyNestedCommand()
  {
    WordsArePlain();
    TokensOfJoin(DEFAULT_WORDS);
    TokensOfJoin(LEGACY_WORDS);
    TokensOfJoin(NESTED_WORDS);
    TokensOfJoin(LEGACY_NESTED_WORDS);
  }

  lemma CommandsStartWithCargo()
    ensures PlainText(DefaultCommand()) && |DefaultCommand()| > 0 && DefaultCommand()[0] == 'c'
    ensures PlainText(LegacyCommand()) && |LegacyCommand()| > 0 && LegacyCommand()[0] == 'c'
    ensures PlainText(NestedCommand()) && |NestedCommand()| > 0 && NestedCommand()[0] == 'c'
  {
    WordsArePlain();
    JoinIsPlain(DEFAULT_WORDS);
    JoinIsPlain(LEGACY_WORDS);
    JoinIsPlain(NESTED_WORDS);
  }

  /** Plain text holds no needle with a character that is neither plain nor a space. */
  lemma PlainTextAvoids(text: string, needle: string, k: nat)
    requires PlainText(text) && k < |needle| && !PlainChar(needle[k]) && needle[k] != ' '
    ensures forall i: nat :: !OccursAt(text, needle, i)
  {
    forall i: nat ensures !OccursAt(text, needle, i) {
      if OccursAt(text, needle, i) { OccursChar(text, needle, i, k); }
    }
  }

  /** A wrapped command splits back into it and the fallback exactly when it holds no `else` of its
      own. */
  lemma OptionalSplits(command: string)
    ensures OptionalBranches(OptionalCommand(command)) == Some((command, FALLBACK)) <==>
            !Contains(command, OPTIONAL_ELSE)
    ensures OptionalCommand(command)[0] == 'i'
  {
    var wrapped := OptionalCommand(command);
    var inner := command + OPTIONAL_ELSE + FALLBACK;
    assert wrapped == OPTIONAL_PREFIX + (inner + OPTIONAL_SUFFIX);
    var body := wrapped[|OPTIONAL_PREFIX|..];
    assert body == inner + OPTIONAL_SUFFIX && wrapped[..|OPTIONAL_PREFIX|] == OPTIONAL_PREFIX;
    assert body[..|body| - |OPTIONAL_SUFFIX|] == inner;
    assert HeadUnique(OPTIONAL_ELSE);
    HeadUniqueIsBorderless(OPTIONAL_ELSE);
    SplitsAtNeedle(command, OPTIONAL_ELSE, FALLBACK);
  }

  lemma SplitsAtNeedle(left: string, needle: string, right: string)
    requires |needle| > 0 && Borderless(needle)
    ensures SplitOnce(left + needle + right, needle) == Some((left, right)) <==> !Contains(left, needle)
  {
    BorderlessFirst(left, needle);
    if !Contains(left, needle) { SplitOnceAt(left, needle, right); }
    if SplitOnce(left + needle + right, needle) == Some((left, right)) {
      SplitOnceFound(left + needle + right, needle);
    }
  }

  lemma RetargetedIsPrintable(entries: seq<Entry>)
    requires forall entry | entry in entries :: Printable(NESTED, entry)
    ensures forall entry | entry in Retarget(entries) :: Printable(NESTED, entry)
  {
    CommandsStartWithCargo();
    assert NESTED.entrySuffix[1] == '|';
    PlainTextAvoids(NestedCommand(), NESTED.entrySuffix, 1);
    var targets := Retarget(entries);
    forall entry | entry in targets ensures Printable(NESTED, entry) {
      var i :| 0 <= i < |targets| && targets[i] == entry;
      assert entries[i] in entries;
    }
  }

  /** An upgraded per-manifest command parses to the retargeted entries. */
  lemma UpgradedParses(command: string)
    requires Parse(NESTED, command).Some?
    ensures var entries := Parse(NESTED, command).value;
            Parse(NESTED, Print(NESTED, Retarget(entries))) == Some(Retarget(entries)) && entries != []
  {
    NestedIsSound();
    ParsedPrintsBack(NESTED, command);
    var entries := Parse(NESTED, command).value;
    RetargetedIsPrintable(entries);
    PrintedParsesBack(NESTED, Retarget(entries));
  }

  // ---- which commands enforce the lint ----

  datatype Level = AllowOrWarn | Deny | Forbid

  const LEVEL_FLAGS := [("-A", AllowOrWarn), ("--allow", AllowOrWarn), ("-W", AllowOrWarn), ("--warn", AllowOrWarn),
                        ("--expect", AllowOrWarn), ("--force-warn", AllowOrWarn), ("-D", Deny), ("--deny", Deny),
                        ("-F", Forbid), ("--forbid", Forbid)]

  /** The level of a flag that takes the lint as its next argument. */
  function SeparateLevel(argument: string, row: nat): Option<Level>
    decreases |LEVEL_FLAGS| - row
  {
    if row >= |LEVEL_FLAGS| then None
    else if argument == LEVEL_FLAGS[row].0 then Some(LEVEL_FLAGS[row].1)
    else SeparateLevel(argument, row + 1)
  }

  const LEVEL_PREFIXES := [("--allow=", AllowOrWarn), ("--warn=", AllowOrWarn), ("--expect=", AllowOrWarn),
                           ("--force-warn=", AllowOrWarn), ("--deny=", Deny), ("--forbid=", Forbid),
                           ("-A", AllowOrWarn), ("-W", AllowOrWarn), ("-D", Deny), ("-F", Forbid)]

  /** The first prefix of the table that the argument extends, and the rest of the argument. */
  function AttachedLevel(argument: string, row: nat): Option<(Level, string)>
    decreases |LEVEL_PREFIXES| - row
  {
    if row >= |LEVEL_PREFIXES| then None
    else
      var (prefix, level) := LEVEL_PREFIXES[row];
      if HasPrefix(argument, prefix) && |prefix| < |argument| then Some((level, argument[|prefix|..]))
      else AttachedLevel(argument, row + 1)
  }

  /** The level and lint set at `index`, and how many arguments they take. */
  function LintArgument(arguments: seq<string>, index: nat): (r: Option<(Level, string, nat)>)
    requires index < |arguments|
    ensures r.Some? ==> 1 <= r.value.2 <= |arguments| - index
  {
    var level := SeparateLevel(arguments[index], 0);
    if level.Some? then
      if index + 1 < |arguments| then Some((level.value, arguments[index + 1], 2)) else None
    else
      var attached := AttachedLevel(arguments[index], 0);
      if attached.Some? then Some((attached.value.0, attached.value.1, 1)) else None
  }

  predicate IsModuleFilesLint(lint: string) {
    lint == LINT || lint == LINT_DASHED
  }

  /** What stands at an index: a level for the module-files lint, if any, and how many arguments
      to move on. */
  type LevelReader = (seq<string>, nat) -> (Option<Level>, nat)

  function ReadLevel(arguments: seq<string>, index: nat): (Option<Level>, nat) {
    if index >= |arguments| then (None, 1)
    else
      var setting := LintArgument(arguments, index);
      if setting.None? then (None, 1)
      else (if IsModuleFilesLint(setting.value.1) then Some(setting.value.0) else None, setting.value.2)
  }

  ghost predicate Advances(read: LevelReader, arguments: seq<string>) {
    forall i: nat | i < |arguments| :: 1 <= read(arguments, i).1 <= |arguments| - i
  }

  function LevelsBy(read: LevelReader, arguments: seq<string>, index: nat): seq<Level>
    requires index <= |arguments| && Advances(read, arguments)
    decreases |arguments| - index
  {
    if index == |arguments| then []
    else
      var (level, consumed) := read(arguments, index);
      (if level.Some? then [level.value] else []) + LevelsBy(read, arguments, index + consumed)
  }

  /** The levels that the arguments from `index` on set for the module-files lint, in order. */
  function Levels(arguments: seq<string>, index: nat): seq<Level>
    requires index <= |arguments|
  {
    LevelsBy(ReadLevel, arguments, index)
  }

  /** Some level forbids the lint, or the last one denies it. */
  predicate Denied(levels: seq<Level>) {
    Forbid in levels || (levels != [] && levels[|levels| - 1] == Deny)
  }

  /** The source's single pass with its two flags. */
  method ScanLints(arguments: seq<string>) returns (enforced: bool)
    ensures enforced <==> Denied(Levels(arguments, 0))
  {
    enforced := ScanLevels(ReadLevel, arguments);
  }

  method ScanLevels(read: LevelReader, arguments: seq<string>) returns (enforced: bool)
    requires Advances(read, arguments)
    ensures enforced <==> Denied(LevelsBy(read, arguments, 0))
  {
    enforced := false;
    var forbidden := false;
    var index := 0;
    ghost var seen: seq<Level> := [];
    while index < |arguments|
      invariant index <= |arguments|
      invariant LevelsBy(read, arguments, 0) == seen + LevelsBy(read, arguments, index)
      invariant (forbidden <==> Forbid in seen) && (enforced <==> Denied(seen))
    {
      var (setting, consumed) := read(arguments, index);
      if setting.Some? {
        var level := setting.value;
        RegroupLevels(seen, level, LevelsBy(read, arguments, index + consumed));
        enforced, forbidden := ApplyLevel(enforced, forbidden, level);
        seen := seen + [level];
      }
      index := index + consumed;
    }
    assert seen + [] == seen;
  }

  /** What one level does to the two flags. */
  method ApplyLevel(enforced: bool, forbidden: bool, level: Level) returns (enforced': bool, forbidden': bool)
    requires forbidden ==> enforced
    ensures forbidden' <==> forbidden || level == Forbid
    ensures enforced' <==> forbidden' || level == Deny
  {
    enforced', forbidden' := enforced, forbidden;
    if level == Forbid {
      enforced' := true;
      forbidden' := true;
    } else if level == Deny && !forbidden {
      enforced' := true;
    } else if level == AllowOrWarn && !forbidden {
      enforced' := false;
    }
  }

  lemma RegroupLevels(seen: seq<Level>, level: Level, rest: seq<Level>)
    ensures seen + ([level] + rest) == (seen + [level]) + rest
    ensures Forbid in seen + [level] <==> Forbid in seen || level == Forbid
    ensures Denied(seen + [level]) <==> Forbid in seen || level == Forbid || level == Deny
  {
  }

  predicate ShellSpecial(c: char) {
    c == ';' || c == '|' || c == '&' || c == '<' || c == '>' || c == '`' || c == '#' || c == '\n' || c == '\r'
  }

  function Position(words: seq<string>, word: string): (r: Option<nat>)
    ensures r.Some? ==> r.value < |words| && words[r.value] == word && word !in words[..r.value]
    ensures r.None? ==> word !in words
  {
    if words == [] then None
    else if words[0] == word then Some(0)
    else
      var rest := Position(words[1..], word);
      if rest.None? then None else Some(rest.value + 1)
  }

  predicate Dynamic(argument: string) {
    Contains(argument, "$") || argument == "--cap-lints" || HasPrefix(argument, "--cap-lints=")
  }

  /** The arguments after `--` of a plain `cargo clippy` call. */
  function LintArguments(command: string): Option<seq<string>> {
    if (exists c | c in command :: ShellSpecial(c)) || Contains(command, "$(") then None
    else
      var words := Tokens(command);
      if |words| < 2 || words[..2] != ["cargo", "clippy"] then None
      else
        var separator := Position(words, "--");
        if separator.None? then None
        else
          var arguments := words[separator.value + 1..];
          if exists argument | argument in arguments :: Dynamic(argument) then None else Some(arguments)
  }

  /** Whether one cargo command denies the lint. */
  predicate DirectlyEnforces(command: string) {
    var arguments := LintArguments(command);
    arguments.Some? && Denied(Levels(arguments.value, 0))
  }

  method DirectClippyCommandEnforces(command: string) returns (enforced: bool)
    ensures enforced <==> DirectlyEnforces(command)
  {
    var arguments := LintArguments(command);
    if arguments.None? {
      return false;
    }
    enforced := ScanLints(arguments.value);
  }

  /** Whether every cargo command that `command` can run denies the lint. */
  predicate Enforces(command: string) {
    var branches := OptionalBranches(command);
    var entries := Parse(NESTED, command);
    if branches.Some? then DirectlyEnforces(branches.value.0)
    else if entries.Some? then forall entry | entry in entries.value :: DirectlyEnforces(entry.command)
    else DirectlyEnforces(command)
  }

  // ---- the generated commands enforce it ----

  const LINT_TAIL := ["-D", "warnings", "-D", LINT]

  lemma LintTailIsDenied()
    ensures Denied(Levels(LINT_TAIL, 0))
  {
    assert SeparateLevel("-D", 6) == SeparateLevel("-D", 4) == SeparateLevel("-D", 2) == Some(Deny);
    assert Levels(LINT_TAIL, 4) == [];
    assert LintArgument(LINT_TAIL, 2) == Some((Deny, LINT, 2));
    assert Levels(LINT_TAIL, 2) == [Deny];
    assert LintArgument(LINT_TAIL, 0) == Some((Deny, "warnings", 2));
    assert "warnings"[0] == 'w' && LINT[0] == 'c' && LINT_DASHED[0] == 'c';
    assert !IsModuleFilesLint("warnings");
  }

  lemma NotDynamic(word: string)
    requires forall k | 0 <= k < |word| :: word[k] != '$'
    requires |word| < 2 || word[1] != '-'
    ensures !Dynamic(word)
  {
    forall i: nat ensures !OccursAt(word, "$", i) {
      if OccursAt(word, "$", i) { OccursChar(word, "$", i, 0); }
    }
    assert "--cap-lints"[1] == '-' && "--cap-lints="[1] == '-';
  }

  lemma LintTailIsStatic()
    ensures forall argument | argument in LINT_TAIL :: !Dynamic(argument)
  {
    NotDynamic("-D");
    NotDynamic("warnings");
    NotDynamic(LINT);
  }

  lemma PositionIs(words: seq<string>, word: string, at: nat)
    requires at < |words| && words[at] == word && word !in words[..at]
    ensures Position(words, word) == Some(at)
  {
  }

  lemma PlainTextIsNotSpecial(text: string)
    requires PlainText(text)
    ensures forall c | c in text :: !ShellSpecial(c)
    ensures !Contains(text, "$(")
  {
    assert "$("[1] == '(';
    PlainTextAvoids(text, "$(", 1);
  }

  lemma LintArgumentsOf(words: seq<string>, at: nat)
    requires forall word | word in words :: Plain(word)
    requires 2 <= at < |words| && words[..2] == ["cargo", "clippy"]
    requires words[at] == "--" && "--" !in words[..at]
    requires forall argument | argument in words[at + 1..] :: !Dynamic(argument)
    ensures LintArguments(Join(words)) == Some(words[at + 1..])
  {
    TokensOfJoin(words);
    JoinIsPlain(words);
    PlainTextIsNotSpecial(Join(words));
    PositionIs(words, "--", at);
  }

  /** A command made of plain words whose only `--` precedes the lint arguments. */
  lemma GeneratedEnforces(front: seq<string>, words: seq<string>)
    requires words == ["cargo", "clippy"] + front + ["--"] + LINT_TAIL
    requires forall word | word in words :: Plain(word)
    requires forall word | word in front :: |word| > 2
    ensures DirectlyEnforces(Join(words))
  {
    var at := |front| + 2;
    assert words[..2] == ["cargo", "clippy"];
    assert words[..at] == ["cargo", "clippy"] + front && words[at + 1..] == LINT_TAIL;
    LintTailIsStatic();
    LintArgumentsOf(words, at);
    LintTailIsDenied();
  }

  lemma DefaultEnforces()
    ensures DirectlyEnforces(DefaultCommand())
  {
    WordsArePlain();
    GeneratedEnforces(["--workspace", "--all-targets", "--all-features", "--locked"], DEFAULT_WORDS);
  }

  lemma NestedEnforces()
    ensures DirectlyEnforces(NestedCommand())
  {
    WordsArePlain();
    GeneratedEnforces(["--manifest-path", MANIFEST_VARIABLE, "--all-targets", "--all-features"], NESTED_WORDS);
  }

  // ---- the laws of upgrading ----

  /** A command's first character tells which shapes it can have. */
  lemma FirstCharacter(command: string)
    ensures Parse(NESTED, command).Some? ==> command != "" && command[0] == '('
    ensures OptionalBranches(command).Some? ==> command != "" && command[0] == 'i'
    ensures RootAddsAllFeatures(command).Some? ==> command != "" && command[0] == 'c'
  {
    CommandsStartWithCargo();
    assert NESTED.commandPrefix[0] == '(' && OPTIONAL_PREFIX[0] == 'i';
    assert HasPrefix(command, NESTED.commandPrefix) ==> command[0] == command[..|NESTED.commandPrefix|][0];
    assert HasPrefix(command, OPTIONAL_PREFIX) ==> command[0] == command[..|OPTIONAL_PREFIX|][0];
  }

  /** What upgrading promises of the command it produces. */
  ghost predicate CurrentAndEnforcing(upgraded: string, manifests: seq<string>) {
    && Classify(upgraded).Some?
    && !Classify(upgraded).value.addsAllFeatures
    && Upgraded(Classify(upgraded).value) == upgraded
    && Manifests(upgraded) == manifests
    && Enforces(upgraded)
  }

  lemma DefaultSplits()
    ensures OptionalBranches(OptionalCommand(DefaultCommand())) == Some((DefaultCommand(), FALLBACK))
    ensures OptionalCommand(DefaultCommand())[0] == 'i'
  {
    CommandsStartWithCargo();
    PlainTextAvoids(DefaultCommand(), OPTIONAL_ELSE, 0);
    OptionalSplits(DefaultCommand());
  }

  lemma RootIsStable()
    ensures CurrentAndEnforcing(DefaultCommand(), [])
  {
    CommandsDiffer();
    CommandsStartWithCargo();
    FirstCharacter(DefaultCommand());
    DefaultEnforces();
  }

  lemma OptionalIsStable()
    ensures CurrentAndEnforcing(OptionalCommand(DefaultCommand()), [])
  {
    CommandsDiffer();
    DefaultSplits();
    FirstCharacter(OptionalCommand(DefaultCommand()));
    DefaultEnforces();
  }

  lemma PerManifestIsStable(command: string)
    requires Parse(NESTED, command).Some?
    ensures CurrentAndEnforcing(Print(NESTED, Retarget(Parse(NESTED, command).value)), Manifests(command))
  {
    var entries := Parse(NESTED, command).value;
    var targets := Retarget(entries);
    UpgradedParses(command);
    TargetsAreCurrent(entries);
    NestedEnforces();
    FirstCharacter(Print(NESTED, targets));
    ParsedAsCurrent(Print(NESTED, targets), targets);
    SameManifests(Print(NESTED, targets), command);
  }

  /** A command that parses to entries which all run the current command is current. */
  lemma ParsedAsCurrent(upgraded: string, targets: seq<Entry>)
    requires Parse(NESTED, upgraded) == Some(targets) && upgraded == Print(NESTED, targets)
    requires !AllRun(targets, LegacyNestedCommand()) && AllRun(targets, NestedCommand()) && Retarget(targets) == targets
    requires RootAddsAllFeatures(upgraded).None? && OptionalBranches(upgraded).None?
             && DirectlyEnforces(NestedCommand())
    ensures Classify(upgraded) == Some(Generated(PerManifest(upgraded), false)) && Enforces(upgraded)
  {
  }

  lemma SameManifests(upgraded: string, command: string)
    requires Parse(NESTED, command).Some? && Parse(NESTED, upgraded) == Some(Retarget(Parse(NESTED, command).value))
    ensures Manifests(upgraded) == Manifests(command)
  {
  }

  /** Retargeted entries run the current command, not the legacy one, and stay as they are. */
  lemma TargetsAreCurrent(entries: seq<Entry>)
    requires entries != []
    ensures var targets := Retarget(entries);
            !AllRun(targets, LegacyNestedCommand()) && AllRun(targets, NestedCommand()) && Retarget(targets) == targets
  {
    CommandsDiffer();
    OnlyOneCommand(entries, NestedCommand(), LegacyNestedCommand());
  }

  lemma OnlyOneCommand(entries: seq<Entry>, command: string, other: string)
    requires entries != [] && command != other
    ensures var targets := RetargetTo(entries, command);
            !AllRun(targets, other) && AllRun(targets, command) && RetargetTo(targets, command) == targets
  {
    var targets := RetargetTo(entries, command);
    assert targets[0] in targets;
  }

  lemma ClassifiedShape(command: string)
    requires Classify(command).Some?
    ensures var shape := Classify(command).value.shape;
            && (shape.Root? ==> RootAddsAllFeatures(command).Some?)
            && (shape.OptionalRoot? ==> OptionalBranches(command).Some?)
            && (shape.PerManifest? ==> Parse(NESTED, command).Some? &&
                                       shape.command == Print(NESTED, Retarget(Parse(NESTED, command).value)))
  {
  }

  /** Upgrading is stable: the upgraded command is classified as current, upgrades to itself,
      keeps every manifest in order, and enforces the lint. */
  lemma UpgradeIsStable(command: string)
    requires Classify(command).Some?
    ensures CurrentAndEnforcing(Upgraded(Classify(command).value), Manifests(command))
  {
    ClassifiedShape(command);
    FirstCharacter(command);
    var generated := Classify(command).value;
    if generated.shape.Root? {
      RootIsStable();
    } else if generated.shape.OptionalRoot? {
      OptionalIsStable();
    } else {
      PerManifestIsStable(command);
    }
  }
}
