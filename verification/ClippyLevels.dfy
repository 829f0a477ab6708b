/** Which lint levels a list of Clippy arguments sets, said by how each setting is written
    (crates/jig-bootstrap/src/clippy_policy.rs). */
module ClippyLevels {
  import opened Wrappers
  import opened Occurrences
  import opened NestedCommands
  import opened ClippyPolicy

  // ---- settings as they are written ----

  datatype Verb = Allow | Warn | Expect | ForceWarn | Denies | Forbids

  function LongFlag(verb: Verb): string {
    match verb
    case Allow => "--allow" case Warn => "--warn" case Expect => "--expect" case ForceWarn => "--force-warn"
    case Denies => "--deny" case Forbids => "--forbid"
  }

  function ShortFlag(verb: Verb): Option<string> {
    match verb
    case Allow => Some("-A") case Warn => Some("-W") case Denies => Some("-D") case Forbids => Some("-F")
    case _ => None
  }

  function LevelOf(verb: Verb): Level {
    match verb
    case Denies => Deny case Forbids => Forbid case _ => AllowOrWarn
  }

  /** `-D lint`, `--deny lint`, `--deny=lint`, `-Dlint`; and a word that sets nothing. */
  datatype Item =
    | Short(verb: Verb, lint: string)
    | Long(verb: Verb, lint: string)
    | LongAttached(verb: Verb, lint: string)
    | ShortAttached(verb: Verb, lint: string)
    | Other(word: string)

  predicate IsFlag(word: string, verb: Verb) {
    word == LongFlag(verb) || Some(word) == ShortFlag(verb)
  }

  /** `word` has a lint attached to the flag. */
  predicate Attaches(word: string, verb: Verb) {
    || (HasPrefix(word, LongFlag(verb) + "=") && |word| > |LongFlag(verb)| + 1)
    || (ShortFlag(verb).Some? && HasPrefix(word, ShortFlag(verb).value) && |word| > |ShortFlag(verb).value|)
  }

  /** A flag that has no argument after it sets nothing. */
  ghost predicate Proper(item: Item, last: bool) {
    match item
    case Short(verb, _) => ShortFlag(verb).Some?
    case Long(_, _) => true
    case LongAttached(_, lint) => lint != ""
    case ShortAttached(verb, lint) => ShortFlag(verb).Some? && lint != ""
    case Other(word) => forall verb :: !Attaches(word, verb) && (IsFlag(word, verb) ==> last)
  }

  /** A short flag is only written where there is one. */
  predicate Writable(item: Item) {
    item.Short? || item.ShortAttached? ==> ShortFlag(item.verb).Some?
  }

  function Words(item: Item): seq<string>
    requires Writable(item)
  {
    match item
    case Short(verb, lint) => [ShortFlag(verb).value, lint]
    case Long(verb, lint) => [LongFlag(verb), lint]
    case LongAttached(verb, lint) => [LongFlag(verb) + "=" + lint]
    case ShortAttached(verb, lint) => [ShortFlag(verb).value + lint]
    case Other(word) => [word]
  }

  /** The level that an item sets for the module-files lint, under either of its names. */
  function ItemLevels(item: Item): seq<Level> {
    if !item.Other? && (item.lint == "clippy::mod_module_files" || item.lint == "clippy::mod-module-files")
    then [LevelOf(item.verb)] else []
  }

  // ---- the two tables ----

  lemma {:induction false} SeparateAt(word: string, row: nat, at: nat)
    requires row <= at < |LEVEL_FLAGS| && LEVEL_FLAGS[at].0 == word
    requires forall k | row <= k < at :: LEVEL_FLAGS[k].0 != word
    ensures SeparateLevel(word, row) == Some(LEVEL_FLAGS[at].1)
    decreases at - row
  {
    if row < at { SeparateAt(word, row + 1, at); }
  }

  lemma {:induction false} SeparateNowhere(word: string, row: nat)
    requires forall k | row <= k < |LEVEL_FLAGS| :: LEVEL_FLAGS[k].0 != word
    ensures SeparateLevel(word, row).None?
    decreases |LEVEL_FLAGS| - row
  {
    if row < |LEVEL_FLAGS| { SeparateNowhere(word, row + 1); }
  }

  predicate Extends(word: string, row: nat)
    requires row < |LEVEL_PREFIXES|
  {
    HasPrefix(word, LEVEL_PREFIXES[row].0) && |LEVEL_PREFIXES[row].0| < |word|
  }

  lemma {:induction false} AttachedAt(word: string, row: nat, at: nat)
    requires row <= at < |LEVEL_PREFIXES| && Extends(word, at)
    requires forall k: nat | row <= k < at :: !Extends(word, k)
    ensures AttachedLevel(word, row) == Some((LEVEL_PREFIXES[at].1, word[|LEVEL_PREFIXES[at].0|..]))
    decreases at - row
  {
    if row < at {
      assert !Extends(word, row);
      AttachedAt(word, row + 1, at);
    }
  }

  lemma {:induction false} AttachedNowhere(word: string, row: nat)
    requires forall k: nat | row <= k < |LEVEL_PREFIXES| :: !Extends(word, k)
    ensures AttachedLevel(word, row).None?
    decreases |LEVEL_PREFIXES| - row
  {
    if row < |LEVEL_PREFIXES| {
      assert !Extends(word, row);
      AttachedNowhere(word, row + 1);
    }
  }

  /** The rows of both tables. */
  function ShortRow(verb: Verb): nat
    requires ShortFlag(verb).Some?
  {
    match verb case Allow => 0 case Warn => 2 case Denies => 6 case _ => 8
  }

  function LongRow(verb: Verb): nat {
    match verb
    case Allow => 1 case Warn => 3 case Expect => 4 case ForceWarn => 5 case Denies => 7 case Forbids => 9
  }

  function ShortPrefixRow(verb: Verb): nat
    requires ShortFlag(verb).Some?
  {
    match verb case Allow => 6 case Warn => 7 case Denies => 8 case _ => 9
  }

  function LongPrefixRow(verb: Verb): nat {
    match verb
    case Allow => 0 case Warn => 1 case Expect => 2 case ForceWarn => 3 case Denies => 4 case Forbids => 5
  }

  lemma FlagRows(verb: Verb)
    ensures LEVEL_FLAGS[LongRow(verb)] == (LongFlag(verb), LevelOf(verb))
    ensures ShortFlag(verb).Some? ==> LEVEL_FLAGS[ShortRow(verb)] == (ShortFlag(verb).value, LevelOf(verb))
  {
  }

  lemma PrefixRows(verb: Verb)
    ensures LEVEL_PREFIXES[LongPrefixRow(verb)] == (LongFlag(verb) + "=", LevelOf(verb))
    ensures ShortFlag(verb).Some? ==> LEVEL_PREFIXES[ShortPrefixRow(verb)] == (ShortFlag(verb).value, LevelOf(verb))
  {
    assert "--allow" + "=" == "--allow=" && "--warn" + "=" == "--warn=" && "--expect" + "=" == "--expect=";
    assert "--force-warn" + "=" == "--force-warn=" && "--deny" + "=" == "--deny=" && "--forbid" + "=" == "--forbid=";
  }

  /** Each row belongs to a verb. */
  lemma FlagVerb(row: nat) returns (verb: Verb)
    requires row < |LEVEL_FLAGS|
    ensures IsFlag(LEVEL_FLAGS[row].0, verb)
  {
    verb := if row < 2 then Allow else if row < 4 then Warn else if row == 4 then Expect else if row == 5 then ForceWarn
            else if row < 8 then Denies else Forbids;
    FlagRows(verb);
  }

  lemma PrefixVerb(row: nat) returns (verb: Verb)
    requires row < |LEVEL_PREFIXES|
    ensures forall word: string | Extends(word, row) :: Attaches(word, verb)
  {
    verb := if row == 0 || row == 6 then Allow else if row == 1 || row == 7 then Warn else if row == 2 then Expect
            else if row == 3 then ForceWarn else if row == 4 || row == 8 then Denies else Forbids;
    PrefixRows(verb);
  }

  // ---- no word is in two rows ----

  /** What tells the flags apart: length, second and third character. */
  function Look(flag: string): (nat, char, char) {
    (|flag|, if |flag| > 1 then flag[1] else ' ', if |flag| > 2 then flag[2] else ' ')
  }

  lemma FlagLooks(row: nat)
    requires row < |LEVEL_FLAGS|
    ensures Look(LEVEL_FLAGS[row].0) ==
            [(2, 'A', ' '), (7, '-', 'a'), (2, 'W', ' '), (6, '-', 'w'), (8, '-', 'e'), (12, '-', 'f'), (2, 'D', ' '),
             (6, '-', 'd'), (2, 'F', ' '), (8, '-', 'f')][row]
  {
  }

  lemma FlagsDiffer(i: nat, j: nat)
    requires i < j < |LEVEL_FLAGS|
    ensures LEVEL_FLAGS[i].0 != LEVEL_FLAGS[j].0
  {
    FlagLooks(i);
    FlagLooks(j);
  }

  lemma NoEquals(row: nat, k: nat)
    requires row < |LEVEL_FLAGS| && k < |LEVEL_FLAGS[row].0|
    ensures LEVEL_FLAGS[row].0[k] != '='
  {
  }

  /** What tells the prefixes apart. */
  lemma PrefixLooks(row: nat)
    requires row < |LEVEL_PREFIXES|
    ensures var p := LEVEL_PREFIXES[row].0;
            && |p| >= 2 && p[1] == ['-', '-', '-', '-', '-', '-', 'A', 'W', 'D', 'F'][row]
            && (row < 6 ==> |p| > 6 && p[2] == ['a', 'w', 'e', 'f', 'd', 'f'][row] && p[|p| - 1] == '=')
            && (row == 3 ==> p[5] == 'c') && (row == 5 ==> p[5] == 'b') && (row >= 6 ==> |p| == 2)
  {
  }

  lemma PrefixChar(word: string, row: nat, k: nat)
    requires row < |LEVEL_PREFIXES| && Extends(word, row) && k < |LEVEL_PREFIXES[row].0|
    ensures word[k] == LEVEL_PREFIXES[row].0[k]
  {
    assert word[..|LEVEL_PREFIXES[row].0|][k] == word[k];
  }

  lemma PrefixesExclude(word: string, i: nat, j: nat)
    requires i < |LEVEL_PREFIXES| && j < |LEVEL_PREFIXES| && Extends(word, i) && Extends(word, j)
    ensures i == j
  {
    PrefixLooks(i);
    PrefixLooks(j);
    PrefixChar(word, i, 1);
    PrefixChar(word, j, 1);
    if i < 6 && j < 6 {
      PrefixChar(word, i, 2);
      PrefixChar(word, j, 2);
      PrefixChar(word, i, 5);
      PrefixChar(word, j, 5);
    }
  }

  lemma AttachedIsNoFlag(word: string, row: nat, flag: nat)
    requires row < |LEVEL_PREFIXES| && Extends(word, row) && flag < |LEVEL_FLAGS|
    ensures word != LEVEL_FLAGS[flag].0
  {
    PrefixLooks(row);
    PrefixChar(word, row, 1);
    FlagLooks(flag);
    if row < 6 && word == LEVEL_FLAGS[flag].0 {
      PrefixChar(word, row, |LEVEL_PREFIXES[row].0| - 1);
      NoEquals(flag, |LEVEL_PREFIXES[row].0| - 1);
    }
  }

  // ---- reading one item ----

  lemma ReadsFlag(word: string, verb: Verb)
    requires IsFlag(word, verb)
    ensures SeparateLevel(word, 0) == Some(LevelOf(verb))
  {
    FlagRows(verb);
    var at := if word == LongFlag(verb) then LongRow(verb) else ShortRow(verb);
    forall k | 0 <= k < at ensures LEVEL_FLAGS[k].0 != word { FlagsDiffer(k, at); }
    SeparateAt(word, 0, at);
  }

  lemma ReadsAttached(word: string, row: nat)
    requires row < |LEVEL_PREFIXES| && Extends(word, row)
    ensures SeparateLevel(word, 0).None?
    ensures AttachedLevel(word, 0) == Some((LEVEL_PREFIXES[row].1, word[|LEVEL_PREFIXES[row].0|..]))
  {
    forall k | 0 <= k < |LEVEL_FLAGS| ensures LEVEL_FLAGS[k].0 != word { AttachedIsNoFlag(word, row, k); }
    SeparateNowhere(word, 0);
    forall k: nat | k < row ensures !Extends(word, k) {
      if Extends(word, k) { PrefixesExclude(word, k, row); }
    }
    AttachedAt(word, 0, row);
  }

  lemma ReadsNothing(word: string)
    requires forall verb :: !Attaches(word, verb)
    ensures AttachedLevel(word, 0).None?
  {
    forall k: nat | k < |LEVEL_PREFIXES| ensures !Extends(word, k) { var verb := PrefixVerb(k); }
    AttachedNowhere(word, 0);
  }

  lemma ReadsNoFlag(word: string)
    requires forall verb :: !IsFlag(word, verb)
    ensures SeparateLevel(word, 0).None?
  {
    forall k: nat | k < |LEVEL_FLAGS| ensures LEVEL_FLAGS[k].0 != word { var verb := FlagVerb(k); }
    SeparateNowhere(word, 0);
  }

  /** An attached setting, as its row reads it. */
  lemma AttachedRow(item: Item) returns (row: nat)
    requires (item.LongAttached? || item.ShortAttached?) && Proper(item, false)
    ensures row < |LEVEL_PREFIXES| && Extends(Words(item)[0], row)
    ensures LEVEL_PREFIXES[row].1 == LevelOf(item.verb) && Words(item)[0][|LEVEL_PREFIXES[row].0|..] == item.lint
  {
    PrefixRows(item.verb);
    row := if item.LongAttached? then LongPrefixRow(item.verb) else ShortPrefixRow(item.verb);
    var p := LEVEL_PREFIXES[row].0;
    assert Words(item)[0] == p + item.lint;
  }

  /** What stands at an index is read as the item that is written there. */
  lemma ReadsItem(arguments: seq<string>, index: nat, item: Item)
    requires Proper(item, index + 1 == |arguments|)
    requires index + |Words(item)| <= |arguments| && arguments[index..index + |Words(item)|] == Words(item)
    ensures var (level, consumed) := ReadLevel(arguments, index);
            && consumed == |Words(item)| && ItemLevels(item) == if level.Some? then [level.value] else []
  {
    var words := Words(item);
    assert forall k | 0 <= k < |words| :: arguments[index + k] == words[k];
    match item {
    case Short(verb, lint) =>
      ReadsFlag(words[0], verb);
      assert arguments[index] == words[0] && arguments[index + 1] == lint;
    case Long(verb, lint) =>
      ReadsFlag(words[0], verb);
      assert arguments[index] == words[0] && arguments[index + 1] == lint;
    case LongAttached(_, _) =>
      var row := AttachedRow(item);
      ReadsAttached(words[0], row);
      assert arguments[index] == words[0];
    case ShortAttached(_, _) =>
      var row := AttachedRow(item);
      ReadsAttached(words[0], row);
      assert arguments[index] == words[0];
    case Other(word) =>
      assert arguments[index] == word;
      ReadsNothing(word);
      if index + 1 < |arguments| { ReadsNoFlag(word); }
    }
  }

  // ---- whole lists ----

  ghost predicate ProperList(items: seq<Item>) {
    forall i | 0 <= i < |items| :: Proper(items[i], i + 1 == |items|)
  }

  function WordsOf(items: seq<Item>): seq<string>
    requires forall item | item in items :: Writable(item)
  {
    if items == [] then [] else Words(items[0]) + WordsOf(items[1..])
  }

  function LevelsOf(items: seq<Item>): seq<Level> {
    if items == [] then [] else ItemLevels(items[0]) + LevelsOf(items[1..])
  }

  lemma ProperHasFlags(items: seq<Item>)
    requires ProperList(items)
    ensures forall item | item in items :: Writable(item)
  {
  }

  lemma ProperTail(items: seq<Item>)
    requires ProperList(items) && items != []
    ensures ProperList(items[1..])
  {
    forall i | 0 <= i < |items[1..]| ensures Proper(items[1..][i], i + 1 == |items[1..]|) {
      assert items[1..][i] == items[i + 1];
    }
  }

  lemma {:induction false} LevelsFrom(pre: seq<string>, items: seq<Item>)
    requires ProperList(items)
    ensures forall item | item in items :: Writable(item)
    ensures Levels(pre + WordsOf(items), |pre|) == LevelsOf(items)
    decreases |items|
  {
    ProperHasFlags(items);
    if items == [] {
      assert pre + [] == pre;
    } else {
      var first, later := items[0], items[1..];
      ProperTail(items);
      FirstIsProper(items);
      LevelsOfFirst(pre, first, WordsOf(later));
      LevelsFrom(pre + Words(first), later);
      SameList(pre, Words(first), WordsOf(later));
    }
  }

  lemma SameList(a: seq<string>, b: seq<string>, c: seq<string>)
    ensures a + (b + c) == a + b + c
  {
  }

  /** A word that sets nothing comes last in the list exactly when no word follows it. */
  lemma FirstIsProper(items: seq<Item>)
    requires ProperList(items) && items != [] && forall item | item in items :: Writable(item)
    ensures Proper(items[0], WordsOf(items[1..]) == [])
  {
    if |items| > 1 { SomeWords(items[1..]); }
  }

  lemma LevelsOfFirst(pre: seq<string>, item: Item, rest: seq<string>)
    requires Proper(item, rest == [])
    ensures Levels(pre + Words(item) + rest, |pre|) ==
            ItemLevels(item) + Levels(pre + Words(item) + rest, |pre + Words(item)|)
  {
    var words, arguments := Words(item), pre + Words(item) + rest;
    assert arguments[|pre|..|pre| + |words|] == words;
    ReadsItem(arguments, |pre|, item);
    LevelsStep(arguments, |pre|, item);
  }

  lemma SomeWords(items: seq<Item>)
    requires items != []
    requires forall item | item in items :: Writable(item)
    ensures WordsOf(items) != []
  {
  }

  lemma LevelsStep(arguments: seq<string>, index: nat, item: Item)
    requires index < |arguments| && Writable(item)
    requires var (level, consumed) := ReadLevel(arguments, index);
             && consumed == |Words(item)| && ItemLevels(item) == if level.Some? then [level.value] else []
    ensures index + |Words(item)| <= |arguments|
    ensures Levels(arguments, index) == ItemLevels(item) + Levels(arguments, index + |Words(item)|)
  {
  }

  /** The levels are those of the settings that name the lint, in order. */
  lemma LevelsOfItems(items: seq<Item>)
    requires ProperList(items)
    ensures forall item | item in items :: Writable(item)
    ensures Levels(WordsOf(items), 0) == LevelsOf(items)
  {
    LevelsFrom([], items);
    ProperHasFlags(items);
    assert [] + WordsOf(items) == WordsOf(items);
  }

  /** Every list of arguments is written in that way. */
  lemma {:induction false} ItemsOf(arguments: seq<string>) returns (items: seq<Item>)
    ensures ProperList(items) && (forall item | item in items :: Writable(item)) && WordsOf(items) == arguments
    decreases |arguments|
  {
    if arguments == [] {
      items := [];
    } else {
      var item := FirstItem(arguments);
      var rest := ItemsOf(arguments[|Words(item)|..]);
      items := [item] + rest;
      if rest == [] { assert arguments[|Words(item)|..] == []; } else { SomeWords(rest); }
      assert items[1..] == rest;
      assert forall i | 0 < i < |items| :: items[i] == rest[i - 1];
      assert arguments == Words(item) + arguments[|Words(item)|..];
    }
  }

  lemma FirstItem(arguments: seq<string>) returns (item: Item)
    requires arguments != []
    ensures Writable(item) && |Words(item)| <= |arguments| && arguments[..|Words(item)|] == Words(item)
    ensures Proper(item, |Words(item)| == |arguments|)
  {
    var word := arguments[0];
    if verb :| Attaches(word, verb) {
      item := AttachedItem(word, verb);
      assert arguments[..1] == [word];
    } else if |arguments| > 1 && exists verb :: IsFlag(word, verb) {
      var verb :| IsFlag(word, verb);
      item := if word == LongFlag(verb) then Long(verb, arguments[1]) else Short(verb, arguments[1]);
      assert arguments[..2] == [word, arguments[1]];
    } else {
      item := Other(word);
      assert arguments[..1] == [word];
    }
  }

  lemma AttachedItem(word: string, verb: Verb) returns (item: Item)
    requires Attaches(word, verb)
    ensures (item.LongAttached? || item.ShortAttached?) && Proper(item, false) && Words(item) == [word]
  {
    var long := LongFlag(verb) + "=";
    if HasPrefix(word, long) && |word| > |long| {
      item := LongAttached(verb, word[|long|..]);
      assert word == long + word[|long|..];
    } else {
      var short := ShortFlag(verb).value;
      item := ShortAttached(verb, word[|short|..]);
      assert word == short + word[|short|..];
    }
  }

  // ---- which commands enforce the lint ----

  /** A single plain `cargo clippy` call with these arguments after its first `--`, none of which is
      expanded by the shell or caps lints. */
  ghost predicate IsDirect(command: string, arguments: seq<string>) {
    && (forall c | c in command :: c !in {';', '|', '&', '<', '>', '`', '#', '\n', '\r'})
    && (forall i | 0 <= i < |command| - 1 :: !(command[i] == '$' && command[i + 1] == '('))
    && (exists front :: Tokens(command) == ["cargo", "clippy"] + front + ["--"] + arguments && "--" !in front)
    && (forall argument | argument in arguments ::
          '$' !in argument && argument != "--cap-lints" && !HasPrefix(argument, "--cap-lints="))
  }

  lemma ContainsOne(text: string, c: char)
    ensures Contains(text, [c]) <==> c in text
  {
    if Contains(text, [c]) {
      var i: nat :| i <= |text| && OccursAt(text, [c], i);
      OccursChar(text, [c], i, 0);
    }
    if c in text {
      var i :| 0 <= i < |text| && text[i] == c;
      assert OccursAt(text, [c], i);
    }
  }

  lemma ContainsTwo(text: string, c: char, d: char)
    ensures Contains(text, [c, d]) <==> exists i | 0 <= i < |text| - 1 :: text[i] == c && text[i + 1] == d
  {
    if Contains(text, [c, d]) {
      var i: nat :| i <= |text| && OccursAt(text, [c, d], i);
      OccursChar(text, [c, d], i, 0);
      OccursChar(text, [c, d], i, 1);
      assert text[i] == c && text[i + 1] == d;
    }
    if i :| 0 <= i < |text| - 1 && text[i] == c && text[i + 1] == d {
      assert text[i..i + 2] == [c, d];
      assert OccursAt(text, [c, d], i);
    }
  }

  lemma DynamicMeaning(argument: string)
    ensures Dynamic(argument) <==>
            '$' in argument || argument == "--cap-lints" || HasPrefix(argument, "--cap-lints=")
  {
    ContainsOne(argument, '$');
    assert "$" == ['$'];
  }

  /** The words of a call, cut at its first `--`. */
  predicate CutAtDashes(words: seq<string>, arguments: seq<string>) {
    && |words| >= 2 && words[..2] == ["cargo", "clippy"]
    && var at := Position(words, "--"); at.Some? && words[at.value + 1..] == arguments
  }

  lemma DashesCut(words: seq<string>, arguments: seq<string>) returns (front: seq<string>)
    requires CutAtDashes(words, arguments)
    ensures words == ["cargo", "clippy"] + front + ["--"] + arguments && "--" !in front
  {
    var n := Position(words, "--").value;
    FirstTwo(words, n);
    front := words[2..n];
    assert words == words[..2] + front + [words[n]] + words[n + 1..];
    forall word | word in front ensures word in words[..n] {
      var k :| 0 <= k < |front| && front[k] == word;
      assert words[..n][k + 2] == word;
    }
  }

  lemma FirstTwo(words: seq<string>, n: nat)
    requires |words| >= 2 && words[..2] == ["cargo", "clippy"] && n < |words| && words[n] == "--"
    ensures n >= 2
  {
    assert "cargo"[0] == 'c' && "clippy"[0] == 'c' && "--"[0] == '-';
    assert words[0] == words[..2][0] && words[1] == words[..2][1];
  }

  lemma CutDashes(words: seq<string>, front: seq<string>, arguments: seq<string>)
    requires words == ["cargo", "clippy"] + front + ["--"] + arguments && "--" !in front
    ensures CutAtDashes(words, arguments)
  {
    var n := |front| + 2;
    assert words[..n] == ["cargo", "clippy"] + front && words[n] == "--";
    assert "cargo"[0] == 'c' && "clippy"[0] == 'c' && "--"[0] == '-';
    assert "--" !in words[..n];
    PositionIs(words, "--", n);
    assert words[..2] == ["cargo", "clippy"] && words[n + 1..] == arguments;
  }

  lemma SplitAtDashes(words: seq<string>, arguments: seq<string>)
    ensures CutAtDashes(words, arguments) <==>
            exists front :: words == ["cargo", "clippy"] + front + ["--"] + arguments && "--" !in front
  {
    if CutAtDashes(words, arguments) { var front := DashesCut(words, arguments); }
    if front :| words == ["cargo", "clippy"] + front + ["--"] + arguments && "--" !in front {
      CutDashes(words, front, arguments);
    }
  }

  /** The arguments that are scanned are those after the first `--` of such a call. */
  lemma LintArgumentsMeaning(command: string, arguments: seq<string>)
    ensures LintArguments(command) == Some(arguments) <==> IsDirect(command, arguments)
  {
    ContainsTwo(command, '$', '(');
    assert "$(" == ['$', '('];
    SplitAtDashes(Tokens(command), arguments);
    forall argument | argument in arguments
      ensures Dynamic(argument) <==>
              '$' in argument || argument == "--cap-lints" || HasPrefix(argument, "--cap-lints=")
    {
      DynamicMeaning(argument);
    }
  }

  /** A command enforces the lint exactly when it is such a call and the settings written in its
      arguments forbid the lint, or the last of them that names it denies it. */
  lemma EnforcesExactly(command: string)
    ensures DirectlyEnforces(command) <==>
            exists items :: && ProperList(items) && (forall item | item in items :: Writable(item))
                            && IsDirect(command, WordsOf(items)) && Denied(LevelsOf(items))
  {
    if DirectlyEnforces(command) {
      var arguments := LintArguments(command).value;
      var items := ItemsOf(arguments);
      LintArgumentsMeaning(command, arguments);
      LevelsOfItems(items);
    }
    if items :| && ProperList(items) && (forall item | item in items :: Writable(item))
                && IsDirect(command, WordsOf(items)) && Denied(LevelsOf(items)) {
      LintArgumentsMeaning(command, WordsOf(items));
      LevelsOfItems(items);
    }
  }

  // ---- commands that do not name the lint ----

  /** The argument holds the lint's name under one of its spellings. */
  predicate Mentions(argument: string) {
    Contains(argument, "clippy::mod_module_files") || Contains(argument, "clippy::mod-module-files")
  }

  lemma ContainsSuffix(a: string, b: string)
    ensures Contains(a + b, b)
  {
    assert OccursAt(a + b, b, |a|);
  }

  lemma ContainsItself(text: string)
    ensures Contains(text, text)
  {
    assert OccursAt(text, text, 0);
  }

  lemma SettingMentions(item: Item)
    requires Writable(item) && ItemLevels(item) != []
    ensures exists word | word in Words(item) :: Mentions(word)
  {
    var word := Words(item)[|Words(item)| - 1];
    assert word in Words(item);
    match item {
    case LongAttached(verb, lint) => ContainsSuffix(LongFlag(verb) + "=", lint);
    case ShortAttached(verb, lint) => ContainsSuffix(ShortFlag(verb).value, lint);
    case Short(_, lint) => ContainsItself(lint);
    case Long(_, lint) => ContainsItself(lint);
    case Other(_) =>
    }
  }

  lemma {:induction false} SilentItems(items: seq<Item>)
    requires forall item | item in items :: Writable(item)
    requires forall word | word in WordsOf(items) :: !Mentions(word)
    ensures LevelsOf(items) == []
  {
    if items != [] {
      if ItemLevels(items[0]) != [] { SettingMentions(items[0]); }
      SilentItems(items[1..]);
    }
  }

  /** A command none of whose arguments names the lint does not enforce it. */
  lemma SilentCommandIsNotEnforcing(command: string)
    requires LintArguments(command).Some? ==> forall word | word in LintArguments(command).value :: !Mentions(word)
    ensures !DirectlyEnforces(command)
  {
    if LintArguments(command).Some? {
      var items := ItemsOf(LintArguments(command).value);
      SilentItems(items);
      LevelsOfItems(items);
    }
  }
}
