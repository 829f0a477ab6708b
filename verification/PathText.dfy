/** Paths as text: components joined and split at slashes. */
module PathText {

  /** A path component: not empty, no slash. */
  predicate IsName(part: string) {
    part != "" && '/' !in part
  }

  ghost predicate AllNames(parts: seq<string>) {
    forall part | part in parts :: IsName(part)
  }

  /** `str::split('/')`: always at least one part, empty parts kept. */
  function SplitSlash(path: string): (r: seq<string>)
    ensures |r| > 0
  {
    if path == "" then [""]
    else
      var rest := SplitSlash(path[1..]);
      if path[0] == '/' then [""] + rest else [[path[0]] + rest[0]] + rest[1..]
  }

  function JoinSlash(parts: seq<string>): string {
    if parts == [] then "" else if |parts| == 1 then parts[0] else parts[0] + "/" + JoinSlash(parts[1..])
  }

  lemma {:induction false} SplitName(part: string, rest: string)
    requires '/' !in part
    ensures SplitSlash(part) == [part]
    ensures SplitSlash(part + "/" + rest) == [part] + SplitSlash(rest)
  {
    if part != "" {
      SplitName(part[1..], rest);
      assert (part + "/" + rest)[1..] == part[1..] + "/" + rest;
      assert [part[0]] + part[1..] == part;
    } else {
      assert ("" + "/" + rest)[1..] == rest;
    }
  }

  /** Splitting undoes joining. */
  lemma {:induction false} SplitOfJoin(parts: seq<string>)
    requires AllNames(parts) && parts != []
    ensures SplitSlash(JoinSlash(parts)) == parts
  {
    assert parts[0] in parts;
    if |parts| == 1 {
      SplitName(parts[0], "");
    } else {
      SplitOfJoin(parts[1..]);
      SplitName(parts[0], JoinSlash(parts[1..]));
    }
  }

  /** Joining is injective on non-empty paths. */
  lemma JoinIsInjective(a: seq<string>, b: seq<string>)
    requires AllNames(a) && AllNames(b) && a != [] && b != [] && JoinSlash(a) == JoinSlash(b)
    ensures a == b
  {
    SplitOfJoin(a);
    SplitOfJoin(b);
  }

  lemma {:induction false} JoinOfSplit(text: string)
    ensures JoinSlash(SplitSlash(text)) == text
  {
    if text != "" {
      JoinOfSplit(text[1..]);
      var rest := SplitSlash(text[1..]);
      if text[0] == '/' {
        assert ([""] + rest)[1..] == rest;
        assert text == "" + "/" + text[1..];
      } else {
        var first := [text[0]] + rest[0];
        assert ([first] + rest[1..])[1..] == rest[1..];
        if |rest| > 1 {
          assert first + "/" + JoinSlash(rest[1..]) == [text[0]] + (rest[0] + "/" + JoinSlash(rest[1..]));
        }
        assert text == [text[0]] + text[1..];
      }
    }
  }

  /** The parts of a text hold its characters, but for the slashes. */
  lemma {:induction false} SplitCharacters(text: string, c: char)
    ensures forall part | part in SplitSlash(text) :: '/' !in part
    ensures c in text && c != '/' <==> exists part | part in SplitSlash(text) :: c in part
  {
    if text == "" {
      assert SplitSlash(text) == [""];
    } else {
      SplitCharacters(text[1..], c);
      var rest := SplitSlash(text[1..]);
      assert text == [text[0]] + text[1..];
      assert rest == [rest[0]] + rest[1..];
      if text[0] == '/' {
        assert SplitSlash(text) == [""] + rest;
      } else {
        assert SplitSlash(text) == [[text[0]] + rest[0]] + rest[1..];
        assert [text[0]] + rest[0] in SplitSlash(text);
      }
    }
  }

  // ---- components ----

  predicate Named(part: string) {
    part != "" && part != "."
  }

  /** What a path keeps of its parts: neither empty nor `.`. */
  function NamedParts(parts: seq<string>): seq<string> {
    if parts == [] then []
    else (if Named(parts[0]) then [parts[0]] else []) + NamedParts(parts[1..])
  }

  lemma {:induction false} NamedPartsAre(parts: seq<string>)
    ensures forall part :: part in NamedParts(parts) <==> part in parts && Named(part)
    ensures (forall part | part in parts :: Named(part)) ==> NamedParts(parts) == parts
  {
    if parts != [] {
      NamedPartsAre(parts[1..]);
      assert parts == [parts[0]] + parts[1..];
      assert parts[0] in parts;
    }
  }
}
