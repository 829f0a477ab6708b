/** Folding a list, and which reorderings of the list the result does not see. */
module Folds {

  function Fold<T, E>(step: (T, E) -> T, start: T, s: seq<E>): T {
    if s == [] then start else step(Fold(step, start, s[..|s| - 1]), s[|s| - 1])
  }

  lemma FoldSnoc<T, E>(step: (T, E) -> T, start: T, s: seq<E>, e: E)
    ensures Fold(step, start, s + [e]) == step(Fold(step, start, s), e)
  {
    assert (s + [e])[..|s|] == s;
  }

  /** Elements that are no rivals can change places. */
  ghost predicate Commutes<T(!new), E(!new)>(step: (T, E) -> T, rivals: (E, E) -> bool) {
    && (forall e, f :: rivals(e, f) == rivals(f, e))
    && (forall t, e, f :: !rivals(e, f) ==> step(step(t, e), f) == step(step(t, f), e))
  }

  lemma {:induction false} MoveToEnd<T(!new), E(!new)>(step: (T, E) -> T, rivals: (E, E) -> bool, start: T,
                                                       a: seq<E>, e: E, b: seq<E>)
    requires Commutes(step, rivals) && forall f | f in b :: !rivals(e, f)
    ensures Fold(step, start, a + [e] + b) == Fold(step, start, a + b + [e])
  {
    if b == [] {
      assert a + [e] + b == a + b + [e];
    } else {
      var front, last := b[..|b| - 1], b[|b| - 1];
      assert b == front + [last];
      MoveToEnd(step, rivals, start, a, e, front);
      FoldSnoc(step, start, a + [e] + front, last);
      FoldSnoc(step, start, a + front, e);
      FoldSnoc(step, start, a + b, e);
      FoldSnoc(step, start, a + front, last);
      assert a + [e] + b == (a + [e] + front) + [last] && a + b == (a + front) + [last];
    }
  }

  ghost predicate Distinct<E>(s: seq<E>) {
    forall i, j | 0 <= i < j < |s| :: s[i] != s[j]
  }

  ghost predicate Before<E>(s: seq<E>, e: E, f: E) {
    exists i, j :: 0 <= i < j < |s| && s[i] == e && s[j] == f
  }

  /** Both lists hold the same elements, each once, and rivals come in the same order. */
  ghost predicate SameContests<E(!new)>(rivals: (E, E) -> bool, s: seq<E>, s': seq<E>) {
    && Distinct(s) && Distinct(s') && |s| == |s'| && (forall e :: e in s <==> e in s')
    && (forall e, f | rivals(e, f) && Before(s, e, f) :: Before(s', e, f))
  }

  lemma BeforeIsStrict<E>(s: seq<E>, e: E, f: E)
    requires Distinct(s) && Before(s, e, f)
    ensures !Before(s, f, e)
  {
  }

  /** The order matters only among rivals. */
  lemma {:induction false} OrderMattersOnlyAmongRivals<T(!new), E(!new)>(step: (T, E) -> T, rivals: (E, E) -> bool,
                                                                         start: T,
                                                                         s: seq<E>, s': seq<E>)
    requires Commutes(step, rivals) && SameContests(rivals, s, s')
    ensures Fold(step, start, s) == Fold(step, start, s')
  {
    if s != [] {
      var front, e := s[..|s| - 1], s[|s| - 1];
      assert s == front + [e] && e in s;
      var i :| 0 <= i < |s'| && s'[i] == e;
      var a, b := s'[..i], s'[i + 1..];
      assert s' == a + [e] + b;
      LastHasNoLaterRival(rivals, s, a, e, b) by {
        assert forall f, g :: rivals(f, g) == rivals(g, f);
      }
      MoveToEnd(step, rivals, start, a, e, b);
      WithoutOne(rivals, s, s', i);
      OrderMattersOnlyAmongRivals(step, rivals, start, front, a + b);
      FoldSnoc(step, start, front, e);
      FoldSnoc(step, start, a + b, e);
    }
  }

  /** What comes after the last element of one list, in the other, is no rival of it. */
  lemma LastHasNoLaterRival<E(!new)>(rivals: (E, E) -> bool, s: seq<E>, a: seq<E>, e: E, b: seq<E>)
    requires s != [] && e == s[|s| - 1] && SameContests(rivals, s, a + [e] + b)
    requires forall f, g :: rivals(f, g) == rivals(g, f)
    ensures forall f | f in b :: !rivals(e, f)
  {
    var s' := a + [e] + b;
    forall f | f in b ensures !rivals(e, f) {
      var j :| 0 <= j < |b| && b[j] == f;
      assert s'[|a|] == e && s'[|a| + 1 + j] == f && Before(s', e, f);
      assert f in s';
      var k :| 0 <= k < |s| && s[k] == f;
      assert k < |s| - 1 && Before(s, f, e);
      BeforeIsStrict(s', e, f);
    }
  }

  /** Taking the last element of one list out of both keeps all that. */
  lemma WithoutOne<E(!new)>(rivals: (E, E) -> bool, s: seq<E>, s': seq<E>, i: nat)
    requires s != [] && SameContests(rivals, s, s') && i < |s'| && s'[i] == s[|s| - 1]
    ensures SameContests(rivals, s[..|s| - 1], s'[..i] + s'[i + 1..])
  {
    var last, front, rest := s[|s| - 1], s[..|s| - 1], s'[..i] + s'[i + 1..];
    assert s == front + [last] && s' == s'[..i] + [last] + s'[i + 1..];
    forall e ensures e in front <==> e in rest {
      if e in rest {
        NotTakenOut(s', i, e);
        assert e in s' && e in s;
      }
      if e in front {
        var j :| 0 <= j < |front| && front[j] == e;
        assert s[j] == e && e in s && e in s';
        assert e != last;
        assert e in s'[..i] || e in s'[i + 1..];
      }
    }
    forall e, f | rivals(e, f) && Before(front, e, f) ensures Before(rest, e, f) {
      var j, k :| 0 <= j < k < |front| && front[j] == e && front[k] == f;
      assert s[j] == e && s[k] == f && Before(s, e, f);
      BeforeWithout(s', i, e, f);
    }
  }

  lemma NotTakenOut<E>(s: seq<E>, i: nat, e: E)
    requires Distinct(s) && i < |s| && e in s[..i] + s[i + 1..]
    ensures e != s[i]
  {
    var rest := s[..i] + s[i + 1..];
    var j :| 0 <= j < |rest| && rest[j] == e;
    assert rest[j] == if j < i then s[j] else s[j + 1];
  }

  lemma BeforeWithout<E>(s: seq<E>, i: nat, e: E, f: E)
    requires i < |s| && Before(s, e, f) && e != s[i] && f != s[i]
    ensures Before(s[..i] + s[i + 1..], e, f)
  {
    var rest := s[..i] + s[i + 1..];
    var j, k :| 0 <= j < k < |s| && s[j] == e && s[k] == f;
    var j', k' := if j < i then j else j - 1, if k < i then k else k - 1;
    assert rest[j'] == e && rest[k'] == f;
  }
}
