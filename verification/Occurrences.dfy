/** Substring occurrences: the two searches the source uses (every window, and the
    non-overlapping left-to-right scan), and the first occurrence. A text is the sequence of
    its bytes, one `char` per byte, so positions are the source's byte offsets. */
module Occurrences {
  import opened Wrappers

  predicate OccursAt(text: string, needle: string, i: nat) {
    i + |needle| <= |text| && text[i..i + |needle|] == needle
  }

  predicate Contains(text: string, needle: string) {
    exists i: nat | i <= |text| :: OccursAt(text, needle, i)
  }

  /** No proper suffix of `needle` is also a prefix: two occurrences cannot overlap. */
  predicate Borderless(needle: string) {
    forall k | 0 < k < |needle| :: needle[k..] != needle[..|needle| - k]
  }

  /** The first character of `needle` appears nowhere else in it. */
  predicate HeadUnique(needle: string) {
    0 < |needle| && forall k | 0 < k < |needle| :: needle[k] != needle[0]
  }

  predicate HasPrefix(text: string, prefix: string) {
    |prefix| <= |text| && text[..|prefix|] == prefix
  }

  predicate HasSuffix(text: string, suffix: string) {
    |suffix| <= |text| && text[|text| - |suffix|..] == suffix
  }

  predicate StrictlyIncreasing(s: seq<nat>) {
    forall a, b | 0 <= a < b < |s| :: s[a] < s[b]
  }

  /** Every window equal to `needle`, overlapping ones included (`slice::windows`). */
  function WindowMatches(text: string, needle: string, i: nat): (r: seq<nat>)
    ensures forall j | j in r :: i <= j && OccursAt(text, needle, j)
    decreases |text| - i
  {
    if i + |needle| > |text| then []
    else if i == |text| then [i]
    else if OccursAt(text, needle, i) then [i] + WindowMatches(text, needle, i + 1)
    else WindowMatches(text, needle, i + 1)
  }

  lemma WindowMatchesExactly(text: string, needle: string, i: nat)
    ensures StrictlyIncreasing(WindowMatches(text, needle, i))
    ensures forall j: nat :: j in WindowMatches(text, needle, i) <==> i <= j && OccursAt(text, needle, j)
    decreases |text| - i
  {
    if i + |needle| <= |text| && i < |text| {
      WindowMatchesExactly(text, needle, i + 1);
      var rest := WindowMatches(text, needle, i + 1);
      assert forall k | 0 <= k < |rest| :: rest[k] in rest;
    }
  }

  /** The scan that resumes after each match (`str::match_indices`). */
  function ScanMatches(text: string, needle: string, i: nat): (r: seq<nat>)
    requires |needle| > 0
    ensures forall j | j in r :: i <= j && OccursAt(text, needle, j)
    decreases |text| - i
  {
    if i + |needle| > |text| then []
    else if OccursAt(text, needle, i) then [i] + ScanMatches(text, needle, i + |needle|)
    else ScanMatches(text, needle, i + 1)
  }

  /** Nothing between an occurrence and its end when the needle has no border. */
  lemma NoOccurrenceInside(text: string, needle: string, i: nat, j: nat)
    requires Borderless(needle)
    requires OccursAt(text, needle, i) && i < j < i + |needle|
    ensures !OccursAt(text, needle, j)
  {
    var k := j - i;
    assert needle[k..] != needle[..|needle| - k];
    var m :| 0 <= m < |needle| - k && needle[k..][m] != needle[..|needle| - k][m];
    OccursChar(text, needle, i, k + m);
    assert text[j + m] != needle[m];
    if j + |needle| <= |text| {
      assert text[j..j + |needle|][m] == text[j + m];
    }
  }

  lemma {:induction false} SkipWindows(text: string, needle: string, i: nat, j: nat)
    requires i <= j
    requires forall k: nat | i <= k < j :: !OccursAt(text, needle, k)
    ensures WindowMatches(text, needle, i) == WindowMatches(text, needle, j)
    decreases j - i
  {
    if i < j {
      assert !OccursAt(text, needle, i);
      SkipWindows(text, needle, i + 1, j);
    }
  }

  lemma WindowsAfterMatch(text: string, needle: string, i: nat)
    requires |needle| > 0 && Borderless(needle) && OccursAt(text, needle, i)
    ensures WindowMatches(text, needle, i) == [i] + WindowMatches(text, needle, i + |needle|)
  {
    forall k: nat | i + 1 <= k < i + |needle| ensures !OccursAt(text, needle, k) {
      NoOccurrenceInside(text, needle, i, k);
    }
    SkipWindows(text, needle, i + 1, i + |needle|);
  }

  /** Both searches agree on a needle that cannot overlap itself. */
  lemma {:induction false} ScanEqualsWindows(text: string, needle: string, i: nat)
    requires |needle| > 0 && Borderless(needle)
    ensures ScanMatches(text, needle, i) == WindowMatches(text, needle, i)
    decreases |text| - i
  {
    if i + |needle| > |text| {
    } else if OccursAt(text, needle, i) {
      ScanEqualsWindows(text, needle, i + |needle|);
      WindowsAfterMatch(text, needle, i);
    } else {
      ScanEqualsWindows(text, needle, i + 1);
    }
  }

  lemma HeadUniqueIsBorderless(needle: string)
    requires HeadUnique(needle)
    ensures Borderless(needle)
  {
    forall k | 0 < k < |needle| ensures needle[k..] != needle[..|needle| - k] {
      assert needle[k..][0] != needle[..|needle| - k][0];
    }
  }

  lemma IncreasingAt(s: seq<nat>, a: nat, b: nat)
    requires StrictlyIncreasing(s) && a < b < |s|
    ensures s[a] in s && s[b] in s && s[a] < s[b]
  {
  }

  /** A search result with exactly one index names the only occurrence. */
  lemma SingleMatch(text: string, needle: string, at: nat)
    requires OccursAt(text, needle, at)
    requires forall j: nat :: OccursAt(text, needle, j) ==> j == at
    ensures WindowMatches(text, needle, 0) == [at]
  {
    var r := WindowMatches(text, needle, 0);
    WindowMatchesExactly(text, needle, 0);
    assert at in r;
    if |r| > 1 { IncreasingAt(r, 0, 1); }
  }

  // ---- first occurrence ----

  /** The position of the first occurrence at or after `i` (`str::find`). */
  function FindFrom(text: string, needle: string, i: nat): (r: Option<nat>)
    ensures r.Some? ==> i <= r.value && OccursAt(text, needle, r.value)
    ensures r.Some? ==> forall k: nat | i <= k < r.value :: !OccursAt(text, needle, k)
    ensures r.None? ==> forall k: nat | i <= k :: !OccursAt(text, needle, k)
    decreases |text| - i
  {
    if i + |needle| > |text| then None
    else if OccursAt(text, needle, i) then Some(i)
    else if i == |text| then None
    else FindFrom(text, needle, i + 1)
  }

  function Find(text: string, needle: string): (r: Option<nat>)
    ensures r.Some? <==> Contains(text, needle)
  {
    FindFrom(text, needle, 0)
  }

  lemma FindIs(text: string, needle: string, at: nat)
    requires OccursAt(text, needle, at)
    requires forall k: nat | k < at :: !OccursAt(text, needle, k)
    ensures Find(text, needle) == Some(at)
  {
    var r := FindFrom(text, needle, 0);
    assert r.Some?;
  }

  // ---- occurrences and concatenation ----

  lemma OccursInLeft(left: string, right: string, needle: string, i: nat)
    requires i + |needle| <= |left|
    ensures OccursAt(left + right, needle, i) <==> OccursAt(left, needle, i)
  {
    assert (left + right)[i..i + |needle|] == left[i..i + |needle|];
  }

  lemma OccursInRight(left: string, right: string, needle: string, i: nat)
    requires |left| <= i
    ensures OccursAt(left + right, needle, i) <==> OccursAt(right, needle, i - |left|)
  {
    if i + |needle| <= |left| + |right| {
      assert (left + right)[i..i + |needle|] == right[i - |left|..i - |left| + |needle|];
    }
  }

  lemma OccursChar(text: string, needle: string, i: nat, k: nat)
    requires OccursAt(text, needle, i) && k < |needle|
    ensures text[i + k] == needle[k]
  {
    assert text[i..i + |needle|][k] == text[i + k];
  }

  lemma ShorterIsPrefix(text: string, longer: string, shorter: string, i: nat)
    requires OccursAt(text, longer, i) && OccursAt(text, shorter, i) && |shorter| <= |longer|
    ensures HasPrefix(longer, shorter)
  {
    assert text[i..i + |longer|][..|shorter|] == text[i..i + |shorter|];
  }

  // ---- splitting at the first occurrence ----

  /** The texts before and after the first occurrence (`str::split_once`). */
  function SplitOnce(text: string, needle: string): (r: Option<(string, string)>)
    ensures r.Some? ==> |r.value.0| + |needle| + |r.value.1| == |text|
  {
    var at := Find(text, needle);
    if at.None? then None else Some((text[..at.value], text[at.value + |needle|..]))
  }

  /** The first occurrence of a needle in `left ++ needle ++ right` depends on `left` alone. */
  lemma FirstIsAtEnd(left: string, needle: string, right: string)
    requires |needle| > 0
    ensures Find(left + needle + right, needle) == Some(|left|) <==> Find(left + needle, needle) == Some(|left|)
  {
    var short, long := left + needle, left + needle + right;
    forall i: nat | i <= |left| ensures OccursAt(long, needle, i) <==> OccursAt(short, needle, i) {
      OccursInLeft(short, right, needle, i);
    }
    assert short[|left|..|left| + |needle|] == needle;
    assert OccursAt(short, needle, |left|);
    if Find(short, needle) == Some(|left|) { FindIs(long, needle, |left|); }
    if Find(long, needle) == Some(|left|) { FindIs(short, needle, |left|); }
  }

  /** For a needle that cannot overlap itself, that means: `left` does not contain it. */
  lemma BorderlessFirst(left: string, needle: string)
    requires |needle| > 0 && Borderless(needle)
    ensures Find(left + needle, needle) == Some(|left|) <==> !Contains(left, needle)
  {
    var text := left + needle;
    assert text[|left|..] == needle;
    assert OccursAt(text, needle, |left|);
    forall i: nat | i < |left| ensures OccursAt(text, needle, i) <==> OccursAt(left, needle, i) {
      if i + |needle| <= |left| {
        OccursInLeft(left, needle, needle, i);
      } else if OccursAt(text, needle, i) {
        NoOccurrenceInside(text, needle, i, |left|);
      }
    }
    if !Contains(left, needle) {
      forall i: nat | i < |left| ensures !OccursAt(text, needle, i) {
        assert !OccursAt(left, needle, i);
      }
      FindIs(text, needle, |left|);
    }
    if Find(text, needle) == Some(|left|) {
      forall i: nat | i <= |left| ensures !OccursAt(left, needle, i) {
      }
    }
  }

  lemma SplitOnceFound(text: string, needle: string)
    requires |needle| > 0 && SplitOnce(text, needle).Some?
    ensures var (left, right) := SplitOnce(text, needle).value;
            text == left + needle + right && Find(left + needle, needle) == Some(|left|)
  {
    var (left, right) := SplitOnce(text, needle).value;
    assert text == left + needle + right;
    FirstIsAtEnd(left, needle, right);
  }

  lemma SplitOnceAt(left: string, needle: string, right: string)
    requires |needle| > 0 && Find(left + needle, needle) == Some(|left|)
    ensures SplitOnce(left + needle + right, needle) == Some((left, right))
  {
    FirstIsAtEnd(left, needle, right);
    var text := left + needle + right;
    assert text[..|left|] == left && text[|left| + |needle|..] == right;
  }

  // ---- concatenation ----

  lemma Regroup(a: string, b: string, c: string, x: string)
    ensures a + b + x == a + (b + x)
    ensures a + b + c + x == a + b + (c + x) == a + (b + (c + x))
  {
  }
}
