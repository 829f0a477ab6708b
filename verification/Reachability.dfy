/** Reachability in a directed graph given by successor lists. A node without an entry has no
    successors; the graph may be cyclic. */
module Reachability {

  type Graph<N> = map<N, seq<N>>

  function Successors<N>(g: Graph<N>, n: N): seq<N> {
    if n in g then g[n] else []
  }

  ghost predicate IsPath<N>(g: Graph<N>, path: seq<N>) {
    |path| > 0 && forall i | 0 <= i < |path| - 1 :: path[i + 1] in Successors(g, path[i])
  }

  /** Reflexive and transitive: there is a path, possibly of one node. */
  ghost predicate Reaches<N(!new)>(g: Graph<N>, a: N, b: N) {
    exists path :: IsPath(g, path) && path[0] == a && path[|path| - 1] == b
  }

  lemma ReachesItself<N(!new)>(g: Graph<N>, a: N)
    ensures Reaches(g, a, a)
  {
    assert IsPath(g, [a]) && [a][0] == a && [a][|[a]| - 1] == a;
  }

  lemma ReachesStep<N(!new)>(g: Graph<N>, a: N, b: N, c: N)
    requires Reaches(g, a, b) && c in Successors(g, b)
    ensures Reaches(g, a, c)
  {
    var path :| IsPath(g, path) && path[0] == a && path[|path| - 1] == b;
    var longer := path + [c];
    forall i | 0 <= i < |longer| - 1 ensures longer[i + 1] in Successors(g, longer[i]) {
      if i < |path| - 1 { assert path[i + 1] in Successors(g, path[i]); }
    }
    assert IsPath(g, longer) && longer[0] == a && longer[|longer| - 1] == c;
  }

  ghost predicate Closed<N>(g: Graph<N>, nodes: set<N>) {
    forall n, m | n in nodes && m in Successors(g, n) :: m in nodes
  }

  lemma {:induction false} PathStaysInside<N(!new)>(g: Graph<N>, nodes: set<N>, path: seq<N>, k: nat)
    requires Closed(g, nodes) && IsPath(g, path) && path[0] in nodes && k < |path|
    ensures path[k] in nodes
  {
    if k > 0 {
      PathStaysInside(g, nodes, path, k - 1);
      assert path[k - 1 + 1] in Successors(g, path[k - 1]);
    }
  }

  /** A closed set holds everything its members reach. */
  lemma ClosedHoldsReachable<N(!new)>(g: Graph<N>, nodes: set<N>, a: N, b: N)
    requires Closed(g, nodes) && a in nodes && Reaches(g, a, b)
    ensures b in nodes
  {
    var path :| IsPath(g, path) && path[0] == a && path[|path| - 1] == b;
    PathStaysInside(g, nodes, path, |path| - 1);
  }

  // ---- worklists ----

  ghost predicate ReachedFrom<N(!new)>(g: Graph<N>, seeds: seq<N>, n: N) {
    exists seed | seed in seeds :: Reaches(g, seed, n)
  }

  /** What a worklist keeps: only reachable nodes; the seeds; and every successor of a visited
      node is visited or pending. */
  ghost predicate WorklistOk<N(!new)>(g: Graph<N>, seeds: seq<N>, visited: set<N>, pending: seq<N>) {
    && (forall n | n in visited || n in pending :: ReachedFrom(g, seeds, n))
    && (forall n | n in seeds :: n in visited || n in pending)
    && (forall n, m | n in visited && m in Successors(g, n) :: m in visited || m in pending)
  }

  lemma WorklistStart<N(!new)>(g: Graph<N>, seeds: seq<N>)
    ensures WorklistOk(g, seeds, {}, seeds)
  {
    forall n | n in seeds ensures ReachedFrom(g, seeds, n) { ReachesItself(g, n); }
  }

  /** Visiting a pending node and queueing its successors keeps that, in whatever place the
      node stood. */
  lemma WorklistVisit<N(!new)>(g: Graph<N>, seeds: seq<N>, visited: set<N>, pending: seq<N>, node: N, pending': seq<N>)
    requires WorklistOk(g, seeds, visited, pending) && node in pending
    requires forall n | n in pending :: n in pending' || n == node
    requires forall n | n in pending' :: n in pending || n in Successors(g, node)
    requires forall n | n in Successors(g, node) :: n in pending'
    ensures WorklistOk(g, seeds, visited + {node}, pending')
  {
    forall n | n in Successors(g, node) ensures ReachedFrom(g, seeds, n) {
      var seed :| seed in seeds && Reaches(g, seed, node);
      ReachesStep(g, seed, node, n);
    }
  }

  /** So does dropping a pending node that was visited before. */
  lemma WorklistSkip<N(!new)>(g: Graph<N>, seeds: seq<N>, visited: set<N>, pending: seq<N>, node: N, pending': seq<N>)
    requires WorklistOk(g, seeds, visited, pending) && node in visited
    requires forall n | n in pending :: n in pending' || n == node
    requires forall n | n in pending' :: n in pending
    ensures WorklistOk(g, seeds, visited, pending')
  {
  }

  /** When nothing is pending, the visited nodes are exactly the reachable ones. */
  lemma WorklistDone<N(!new)>(g: Graph<N>, seeds: seq<N>, visited: set<N>)
    requires WorklistOk(g, seeds, visited, [])
    ensures forall n :: n in visited <==> ReachedFrom(g, seeds, n)
  {
    forall n | ReachedFrom(g, seeds, n) ensures n in visited {
      var seed :| seed in seeds && Reaches(g, seed, n);
      ClosedHoldsReachable(g, visited, seed, n);
    }
  }

  /** All nodes a worklist can ever meet. */
  ghost function Universe<N>(g: Graph<N>, seeds: seq<N>): set<N> {
    (set n | n in seeds) + g.Keys + set k, n | k in g && n in g[k] :: n
  }

  lemma PopLast<N>(pending: seq<N>)
    requires pending != []
    ensures var last := |pending| - 1;
            && (forall n | n in pending :: n in pending[..last] || n == pending[last])
            && (forall n | n in pending[..last] :: n in pending)
            && pending[last] in pending
  {
    assert pending == pending[..|pending| - 1] + [pending[|pending| - 1]];
  }
}
