/** The generated shell command that runs one cargo command per nested manifest: parsing it
    into its entries, printing it, and rewriting its cargo commands
    (crates/jig-bootstrap/src/clippy_policy.rs). */
module NestedCommands {
  import opened Wrappers
  import opened Occurrences

  /** The fixed texts of the command, so that the laws do not depend on their letters. */
  datatype Grammar = Grammar(commandPrefix: string, entryPrefix: string, separator: string,
                             entrySuffix: string, commandSuffix: string)

  /** What the laws need: an entry is never mistaken for the end of the command, and the entry
      suffix cannot overlap itself. */
  predicate SoundGrammar(g: Grammar) {
    && |g.separator| > 0 && |g.entrySuffix| > 0 && Borderless(g.entrySuffix)
    && (exists k | 0 <= k < |g.entryPrefix| && k < |g.commandSuffix| :: g.entryPrefix[k] != g.commandSuffix[k])
  }

  const COMMAND_PREFIX := "( found=0; rc=0"
  const ENTRY_PREFIX := "; jig_manifest="
  const SEPARATOR := "; if [ -f \"$jig_manifest\" ]; then found=1; "
  const ENTRY_SUFFIX := " || rc=$?; fi"
  const FALLBACK := "printf '%s\\n' 'No Cargo.toml found; skipping cargo clippy.'"
  const COMMAND_SUFFIX := "; if [ \"$found\" -eq 0 ]; then " + FALLBACK + "; fi; exit \"$rc\" )"

  const NESTED := Grammar(COMMAND_PREFIX, ENTRY_PREFIX, SEPARATOR, ENTRY_SUFFIX, COMMAND_SUFFIX)

  lemma EntrySuffixIsBorderless()
    ensures Borderless(ENTRY_SUFFIX)
  {
    forall k | 0 < k < |ENTRY_SUFFIX| ensures ENTRY_SUFFIX[k..] != ENTRY_SUFFIX[..|ENTRY_SUFFIX| - k] {
      if k == 3 {
        assert ENTRY_SUFFIX[k..][1] == 'r';
      } else if k == 10 {
        assert ENTRY_SUFFIX[k..][1] == 'f';
      } else {
        assert ENTRY_SUFFIX[k..][0] != ' ';
      }
    }
  }

  /** The texts of the source make a sound grammar. */
  lemma NestedIsSound()
    ensures SoundGrammar(NESTED)
  {
    EntrySuffixIsBorderless();
    assert NESTED.entryPrefix[2] == 'j' && NESTED.commandSuffix[2] == 'i';
  }

  datatype Entry = Entry(manifest: string, command: string)

  function PrintEntry(g: Grammar, entry: Entry): string {
    g.entryPrefix + entry.manifest + g.separator + entry.command + g.entrySuffix
  }

  function PrintEntries(g: Grammar, entries: seq<Entry>): string {
    if entries == [] then g.commandSuffix else PrintEntry(g, entries[0]) + PrintEntries(g, entries[1..])
  }

  /** The whole command for a list of entries. */
  function Print(g: Grammar, entries: seq<Entry>): string {
    g.commandPrefix + PrintEntries(g, entries)
  }

  /** The first entry of `remaining` and the text after it. */
  function ParseEntry(g: Grammar, remaining: string): (r: Option<(Entry, string)>)
    ensures r.Some? ==> |r.value.1| < |remaining|
  {
    if !HasPrefix(remaining, g.entryPrefix) then None
    else
      var assignment := SplitOnce(remaining[|g.entryPrefix|..], g.separator);
      if assignment.None? then None
      else
        var (manifest, rest) := assignment.value;
        if manifest == "" || Contains(manifest, g.entryPrefix) || Contains(manifest, g.separator) then None
        else
          var body := SplitOnce(rest, g.entrySuffix);
          if body.None? || body.value.0 == "" then None
          else Some((Entry(manifest, body.value.0), body.value.1))
  }

  function ParseEntries(g: Grammar, remaining: string): Option<seq<Entry>>
    decreases |remaining|
  {
    if remaining == g.commandSuffix then Some([])
    else
      var first := ParseEntry(g, remaining);
      if first.None? then None
      else
        var rest := ParseEntries(g, first.value.1);
        if rest.None? then None else Some([first.value.0] + rest.value)
  }

  /** The entries of a nested command, `None` when the text is not one. */
  function Parse(g: Grammar, command: string): Option<seq<Entry>> {
    if !HasPrefix(command, g.commandPrefix) then None
    else
      var entries := ParseEntries(g, command[|g.commandPrefix|..]);
      if entries == Some([]) then None else entries
  }

  /** The parsing loop of the source. */
  method NestedCommandEntries(g: Grammar, command: string) returns (r: Option<seq<Entry>>)
    requires SoundGrammar(g)
    ensures r == Parse(g, command)
    ensures r.Some? ==> r.value != [] && Print(g, r.value) == command
  {
    if !HasPrefix(command, g.commandPrefix) {
      return None;
    }
    var remaining := command[|g.commandPrefix|..];
    var entries: seq<Entry> := [];
    ghost var whole := ParseEntries(g, remaining);
    assert whole.Some? ==> [] + whole.value == whole.value;
    while remaining != g.commandSuffix
      invariant var rest := ParseEntries(g, remaining);
                whole == if rest.None? then None else Some(entries + rest.value)
      decreases |remaining|
    {
      if !HasPrefix(remaining, g.entryPrefix) {
        return None;
      }
      var assignment := SplitOnce(remaining[|g.entryPrefix|..], g.separator);
      if assignment.None? {
        return None;
      }
      var (manifest, rest) := assignment.value;
      if manifest == "" || Contains(manifest, g.entryPrefix) || Contains(manifest, g.separator) {
        return None;
      }
      var body := SplitOnce(rest, g.entrySuffix);
      if body.None? || body.value.0 == "" {
        return None;
      }
      var entry := Entry(manifest, body.value.0);
      ghost var after := ParseEntries(g, body.value.1);
      assert after.Some? ==> entries + ([entry] + after.value) == (entries + [entry]) + after.value;
      entries := entries + [entry];
      remaining := body.value.1;
    }
    assert entries + [] == entries;
    r := if entries == [] then None else Some(entries);
    if r.Some? {
      ParsedPrintsBack(g, command);
    }
  }

  // ---- parsing then printing ----

  /** What parsing demands of an entry. */
  predicate Printable(g: Grammar, entry: Entry) {
    && entry.manifest != "" && Find(entry.manifest + g.separator, g.separator) == Some(|entry.manifest|)
    && !Contains(entry.manifest, g.entryPrefix)
    && entry.command != "" && !Contains(entry.command, g.entrySuffix)
  }

  lemma ParsedEntry(g: Grammar, remaining: string)
    requires SoundGrammar(g) && ParseEntry(g, remaining).Some?
    ensures var (entry, rest) := ParseEntry(g, remaining).value;
            Printable(g, entry) && remaining == PrintEntry(g, entry) + rest
  {
    var (entry, rest) := ParseEntry(g, remaining).value;
    var body := remaining[|g.entryPrefix|..];
    var (manifest, after) := SplitOnce(body, g.separator).value;
    SplitOnceFound(body, g.separator);
    SplitOnceFound(after, g.entrySuffix);
    BorderlessFirst(entry.command, g.entrySuffix);
    assert remaining == g.entryPrefix + body;
    assert body == manifest + g.separator + after && after == entry.command + g.entrySuffix + rest;
    PrintEntryReassociated(g, entry, rest);
  }

  lemma PrintEntryReassociated(g: Grammar, entry: Entry, rest: string)
    ensures PrintEntry(g, entry) + rest ==
            g.entryPrefix + (entry.manifest + g.separator + (entry.command + g.entrySuffix + rest))
  {
  }

  lemma {:induction false} ParsedEntries(g: Grammar, remaining: string)
    requires SoundGrammar(g) && ParseEntries(g, remaining).Some?
    ensures PrintEntries(g, ParseEntries(g, remaining).value) == remaining
    ensures forall entry | entry in ParseEntries(g, remaining).value :: Printable(g, entry)
    decreases |remaining|
  {
    if remaining != g.commandSuffix {
      var (entry, rest) := ParseEntry(g, remaining).value;
      ParsedEntry(g, remaining);
      ParsedEntries(g, rest);
      assert ParseEntries(g, remaining).value[1..] == ParseEntries(g, rest).value;
    }
  }

  /** Whatever parses, prints back to exactly the text that was parsed. */
  lemma ParsedPrintsBack(g: Grammar, command: string)
    requires SoundGrammar(g) && Parse(g, command).Some?
    ensures Print(g, Parse(g, command).value) == command
    ensures forall entry | entry in Parse(g, command).value :: Printable(g, entry)
  {
    ParsedEntries(g, command[|g.commandPrefix|..]);
    assert command == g.commandPrefix + command[|g.commandPrefix|..];
  }

  // ---- printing then parsing ----

  lemma PrintedEntryParses(g: Grammar, entry: Entry, rest: string)
    requires SoundGrammar(g) && Printable(g, entry)
    ensures ParseEntry(g, PrintEntry(g, entry) + rest) == Some((entry, rest))
    ensures PrintEntry(g, entry) + rest != g.commandSuffix
  {
    var remaining := PrintEntry(g, entry) + rest;
    var after := entry.command + g.entrySuffix + rest;
    var body := entry.manifest + g.separator + after;
    PrintEntryReassociated(g, entry, rest);
    assert remaining[|g.entryPrefix|..] == body && remaining[..|g.entryPrefix|] == g.entryPrefix;
    var k :| 0 <= k < |g.entryPrefix| && k < |g.commandSuffix| && g.entryPrefix[k] != g.commandSuffix[k];
    assert remaining[k] == g.entryPrefix[k];
    SplitOnceAt(entry.manifest, g.separator, after);
    NoSeparatorInManifest(g, entry.manifest);
    BorderlessFirst(entry.command, g.entrySuffix);
    SplitOnceAt(entry.command, g.entrySuffix, rest);
  }

  lemma NoSeparatorInManifest(g: Grammar, manifest: string)
    requires |g.separator| > 0 && Find(manifest + g.separator, g.separator) == Some(|manifest|)
    ensures !Contains(manifest, g.separator)
  {
    forall i: nat | i <= |manifest| ensures !OccursAt(manifest, g.separator, i) {
      if i + |g.separator| <= |manifest| {
        OccursInLeft(manifest, g.separator, g.separator, i);
      }
    }
  }

  lemma {:induction false} PrintedEntriesParse(g: Grammar, entries: seq<Entry>)
    requires SoundGrammar(g) && forall entry | entry in entries :: Printable(g, entry)
    ensures ParseEntries(g, PrintEntries(g, entries)) == Some(entries)
  {
    if entries != [] {
      PrintedEntriesParse(g, entries[1..]);
      PrintedEntryParses(g, entries[0], PrintEntries(g, entries[1..]));
      assert [entries[0]] + entries[1..] == entries;
    }
  }

  /** Parsing a printed list gives the list back exactly when the list is not empty and the
      first separator after each manifest is the printed one, no manifest holds an entry
      prefix, and no command is empty or holds an entry suffix. */
  lemma PrintedParsesBack(g: Grammar, entries: seq<Entry>)
    requires SoundGrammar(g)
    ensures Parse(g, Print(g, entries)) == Some(entries) <==>
            entries != [] && forall entry | entry in entries :: Printable(g, entry)
  {
    var command := Print(g, entries);
    assert command[..|g.commandPrefix|] == g.commandPrefix && command[|g.commandPrefix|..] == PrintEntries(g, entries);
    if forall entry | entry in entries :: Printable(g, entry) {
      PrintedEntriesParse(g, entries);
    }
    if Parse(g, command) == Some(entries) {
      ParsedPrintsBack(g, command);
    }
  }
}
