/** Strict total orders, and the one increasing list of a set: what `sort` followed by `dedup`
    produces, and what an ordered set iterates over. */
module Orders {

  ghost predicate StrictOrder<T(!new)>(less: (T, T) -> bool) {
    && (forall x :: !less(x, x))
    && (forall x, y, z :: less(x, y) && less(y, z) ==> less(x, z))
    && (forall x, y :: less(x, y) || x == y || less(y, x))
  }

  ghost predicate Increasing<T>(s: seq<T>, less: (T, T) -> bool) {
    forall i, j | 0 <= i < j < |s| :: less(s[i], s[j])
  }

  /** Sorted, duplicates allowed. */
  ghost predicate Nondecreasing<T>(s: seq<T>, less: (T, T) -> bool) {
    forall i, j | 0 <= i < j < |s| :: !less(s[j], s[i])
  }

  function Elements<T>(s: seq<T>): set<T> {
    set x | x in s
  }

  function Insert<T>(x: T, s: seq<T>, less: (T, T) -> bool): (r: seq<T>)
    ensures multiset(r) == multiset(s) + multiset{x}
  {
    if s == [] || !less(s[0], x) then [x] + s
    else
      assert s == [s[0]] + s[1..];
      [s[0]] + Insert(x, s[1..], less)
  }

  function Sort<T>(s: seq<T>, less: (T, T) -> bool): (r: seq<T>)
    ensures multiset(r) == multiset(s)
  {
    if s == [] then []
    else
      assert s == [s[0]] + s[1..];
      Insert(s[0], Sort(s[1..], less), less)
  }

  /** Drops every element equal to the one before it. */
  function Dedup<T(==)>(s: seq<T>): (r: seq<T>)
    ensures s != [] ==> r != [] && r[0] == s[0]
    ensures |r| <= |s|
  {
    if |s| <= 1 then s
    else if s[0] == s[1] then Dedup(s[1..])
    else [s[0]] + Dedup(s[1..])
  }

  function Canonical<T(==)>(s: seq<T>, less: (T, T) -> bool): seq<T> {
    Dedup(Sort(s, less))
  }

  lemma InsertKeepsOrder<T(!new)>(x: T, s: seq<T>, less: (T, T) -> bool)
    requires StrictOrder(less) && Nondecreasing(s, less)
    ensures Nondecreasing(Insert(x, s, less), less)
  {
    var r := Insert(x, s, less);
    if s != [] && less(s[0], x) {
      InsertKeepsOrder(x, s[1..], less);
      var rest := Insert(x, s[1..], less);
      forall y | y in rest ensures !less(y, s[0]) {
        assert y in multiset(rest);
        if y != x {
          assert y in multiset(s[1..]);
          var k :| 0 <= k < |s| - 1 && s[1..][k] == y;
          assert s[k + 1] == y;
        }
      }
    }
  }

  lemma SortIsSorted<T(!new)>(s: seq<T>, less: (T, T) -> bool)
    requires StrictOrder(less)
    ensures Nondecreasing(Sort(s, less), less)
  {
    if s != [] {
      SortIsSorted(s[1..], less);
      InsertKeepsOrder(s[0], Sort(s[1..], less), less);
    }
  }

  lemma DedupElements<T>(s: seq<T>)
    ensures forall x :: x in Dedup(s) <==> x in s
  {
    if |s| > 1 {
      DedupElements(s[1..]);
      assert s == [s[0]] + s[1..];
    }
  }

  lemma DedupIncreases<T(!new)>(s: seq<T>, less: (T, T) -> bool)
    requires StrictOrder(less) && Nondecreasing(s, less)
    ensures Increasing(Dedup(s), less)
  {
    if |s| > 1 {
      DedupIncreases(s[1..], less);
      DedupElements(s[1..]);
      var rest := Dedup(s[1..]);
      if s[0] != s[1] {
        forall y | y in rest ensures less(s[0], y) {
          var k :| 0 <= k < |s[1..]| && s[1..][k] == y;
          assert y == s[k + 1];
          assert less(s[0], s[1]);
        }
      }
    }
  }

  /** Sorting and deduplicating gives an increasing list of the same elements. */
  lemma CanonicalOf<T(!new)>(s: seq<T>, less: (T, T) -> bool)
    requires StrictOrder(less)
    ensures Increasing(Canonical(s, less), less)
    ensures Elements(Canonical(s, less)) == Elements(s)
  {
    SortIsSorted(s, less);
    DedupIncreases(Sort(s, less), less);
    DedupElements(Sort(s, less));
    forall x ensures x in Sort(s, less) <==> x in s {
      assert x in multiset(Sort(s, less)) <==> x in multiset(s);
    }
  }

  /** There is only one increasing list of a set. */
  lemma {:induction false} IncreasingIsUnique<T(!new)>(a: seq<T>, b: seq<T>, less: (T, T) -> bool)
    requires StrictOrder(less) && Increasing(a, less) && Increasing(b, less)
    requires Elements(a) == Elements(b)
    ensures a == b
  {
    EmptyElements(a);
    EmptyElements(b);
    if a != [] && b != [] {
      assert a[0] in Elements(a) && b[0] in Elements(b);
      SameHead(a, b, less);
      TailElements(a, less);
      TailElements(b, less);
      IncreasingIsUnique(a[1..], b[1..], less);
      assert a == [a[0]] + a[1..] && b == [b[0]] + b[1..];
    }
  }

  lemma EmptyElements<T>(s: seq<T>)
    ensures Elements(s) == {} <==> s == []
  {
    if s != [] { assert s[0] in Elements(s); }
  }

  lemma SameHead<T(!new)>(a: seq<T>, b: seq<T>, less: (T, T) -> bool)
    requires StrictOrder(less) && Increasing(a, less) && Increasing(b, less)
    requires a != [] && b != [] && a[0] in b && b[0] in a
    ensures a[0] == b[0]
  {
    var i :| 0 <= i < |b| && b[i] == a[0];
    var j :| 0 <= j < |a| && a[j] == b[0];
  }

  lemma TailElements<T(!new)>(s: seq<T>, less: (T, T) -> bool)
    requires StrictOrder(less) && Increasing(s, less) && s != []
    ensures Elements(s[1..]) == Elements(s) - {s[0]}
  {
    assert s == [s[0]] + s[1..];
    forall x | x in s[1..] ensures x != s[0] {
      var k :| 0 <= k < |s[1..]| && s[1..][k] == x;
      assert s[k + 1] == x;
    }
  }

  /** The canonical list depends on the elements alone, not on their order or repetition. */
  lemma CanonicalIgnoresOrder<T(!new)>(a: seq<T>, b: seq<T>, less: (T, T) -> bool)
    requires StrictOrder(less) && Elements(a) == Elements(b)
    ensures Canonical(a, less) == Canonical(b, less)
  {
    CanonicalOf(a, less);
    CanonicalOf(b, less);
    IncreasingIsUnique(Canonical(a, less), Canonical(b, less), less);
  }

  lemma {:induction false} DistinctCount<T>(s: seq<T>)
    requires forall i, j | 0 <= i < j < |s| :: s[i] != s[j]
    ensures |Elements(s)| == |s|
  {
    if s != [] {
      DistinctCount(s[1..]);
      assert s == [s[0]] + s[1..];
      assert Elements(s) == {s[0]} + Elements(s[1..]);
      forall x | x in s[1..] ensures x != s[0] {
        var k :| 0 <= k < |s[1..]| && s[1..][k] == x;
        assert s[k + 1] == x;
      }
    }
  }

  // ---- sequences ----

  /** Lexicographic order: the first difference decides, a prefix comes first. */
  predicate LexLess<T(==)>(a: seq<T>, b: seq<T>, less: (T, T) -> bool) {
    if b == [] then false
    else if a == [] then true
    else less(a[0], b[0]) || (a[0] == b[0] && LexLess(a[1..], b[1..], less))
  }

  lemma {:induction false} LexIrreflexive<T(!new)>(a: seq<T>, less: (T, T) -> bool)
    requires StrictOrder(less)
    ensures !LexLess(a, a, less)
  {
    if a != [] { LexIrreflexive(a[1..], less); }
  }

  lemma {:induction false} LexTransitive<T(!new)>(a: seq<T>, b: seq<T>, c: seq<T>, less: (T, T) -> bool)
    requires StrictOrder(less) && LexLess(a, b, less) && LexLess(b, c, less)
    ensures LexLess(a, c, less)
  {
    if a != [] && a[0] == b[0] == c[0] { LexTransitive(a[1..], b[1..], c[1..], less); }
  }

  lemma {:induction false} LexTotal<T(!new)>(a: seq<T>, b: seq<T>, less: (T, T) -> bool)
    requires StrictOrder(less)
    ensures LexLess(a, b, less) || a == b || LexLess(b, a, less)
  {
    if a != [] && b != [] && a[0] == b[0] {
      LexTotal(a[1..], b[1..], less);
      assert a == [a[0]] + a[1..] && b == [b[0]] + b[1..];
    }
  }

  predicate CharLess(a: char, b: char) {
    a < b
  }

  /** The byte order of texts. */
  predicate TextLess(a: string, b: string) {
    LexLess(a, b, CharLess)
  }

  /** The order of paths, component by component. */
  predicate PathLess(a: seq<string>, b: seq<string>) {
    LexLess(a, b, TextLess)
  }

  lemma TextOrder()
    ensures StrictOrder(TextLess)
  {
    forall a ensures !TextLess(a, a) { LexIrreflexive(a, CharLess); }
    forall a, b, c | TextLess(a, b) && TextLess(b, c) ensures TextLess(a, c) { LexTransitive(a, b, c, CharLess); }
    forall a, b ensures TextLess(a, b) || a == b || TextLess(b, a) { LexTotal(a, b, CharLess); }
  }

  lemma PathOrder()
    ensures StrictOrder(PathLess)
  {
    TextOrder();
    forall a ensures !PathLess(a, a) { LexIrreflexive(a, TextLess); }
    forall a, b, c | PathLess(a, b) && PathLess(b, c) ensures PathLess(a, c) { LexTransitive(a, b, c, TextLess); }
    forall a, b ensures PathLess(a, b) || a == b || PathLess(b, a) { LexTotal(a, b, TextLess); }
  }
}
