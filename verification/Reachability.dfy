/** Reachability in a finite graph, and what a depth-first exploration establishes about it. */
module Reachability {
  /** Consecutive nodes of `p` are joined by edges. */
  ghost predicate IsPath<N(!new)>(succ: N -> set<N>, p: seq<N>) {
    p != [] && forall i :: 0 <= i < |p| - 1 ==> p[i + 1] in succ(p[i])
  }

  ghost predicate Reach<N(!new)>(succ: N -> set<N>, a: N, b: N) {
    exists p: seq<N> :: IsPath(succ, p) && p[0] == a && p[|p| - 1] == b
  }

  lemma ReachSelf<N(!new)>(succ: N -> set<N>, a: N)
    ensures Reach(succ, a, a)
  {
    assert IsPath(succ, [a]) && [a][0] == a && [a][|[a]| - 1] == a;
  }

  lemma ReachEdge<N(!new)>(succ: N -> set<N>, a: N, b: N, c: N)
    requires Reach(succ, a, b) && c in succ(b)
    ensures Reach(succ, a, c)
  {
    var p :| IsPath(succ, p) && p[0] == a && p[|p| - 1] == b;
    var q := p + [c];
    assert IsPath(succ, q) && q[0] == a && q[|q| - 1] == c;
  }

  lemma EdgeReach<N(!new)>(succ: N -> set<N>, a: N, b: N, c: N)
    requires b in succ(a) && Reach(succ, b, c)
    ensures Reach(succ, a, c)
  {
    var p :| IsPath(succ, p) && p[0] == b && p[|p| - 1] == c;
    var q := [a] + p;
    forall i | 0 <= i < |q| - 1 ensures q[i + 1] in succ(q[i]) {
      if i > 0 {
        assert p[i - 1 + 1] in succ(p[i - 1]);
      }
    }
    assert IsPath(succ, q) && q[0] == a && q[|q| - 1] == c;
  }

  ghost predicate Closed<N>(succ: N -> set<N>, s: set<N>) {
    forall n :: n in s ==> succ(n) <= s
  }

  /** A closed set that holds the start holds everything reachable. */
  lemma ClosedHoldsReachable<N(!new)>(succ: N -> set<N>, s: set<N>, a: N, b: N)
    requires Closed(succ, s) && a in s && Reach(succ, a, b)
    ensures b in s
  {
    var p :| IsPath(succ, p) && p[0] == a && p[|p| - 1] == b;
    PathStays(succ, s, p, |p| - 1);
  }

  lemma {:induction false} PathStays<N(!new)>(succ: N -> set<N>, s: set<N>, p: seq<N>, i: nat)
    requires Closed(succ, s) && IsPath(succ, p) && p[0] in s && i < |p|
    ensures p[i] in s
  {
    if i > 0 {
      PathStays(succ, s, p, i - 1);
      assert p[i - 1 + 1] in succ(p[i - 1]);
    }
  }

  /** What exploring from `roots` does to the set of visited nodes: it adds the roots, only nodes
      reachable from them, and with every node it adds all of that node's successors. */
  ghost predicate Explored<N(!new)>(succ: N -> set<N>, before: set<N>, after: set<N>, roots: set<N>) {
    && before + roots <= after
    && (forall n :: n in after - before ==> succ(n) <= after)
    && (forall n :: n in after - before ==> exists r :: r in roots && Reach(succ, r, n))
  }

  lemma ExploredNothing<N(!new)>(succ: N -> set<N>, s: set<N>, roots: set<N>)
    requires roots <= s
    ensures Explored(succ, s, s, roots)
  {
  }

  lemma ExploredThen<N(!new)>(succ: N -> set<N>, a: set<N>, b: set<N>, c: set<N>, r1: set<N>, r2: set<N>)
    requires Explored(succ, a, b, r1) && Explored(succ, b, c, r2)
    ensures Explored(succ, a, c, r1 + r2)
  {
    forall n | n in c - a ensures succ(n) <= c && exists r :: r in r1 + r2 && Reach(succ, r, n) {
      if n in b {
        assert n in b - a;
        var r :| r in r1 && Reach(succ, r, n);
        assert r in r1 + r2;
      } else {
        assert n in c - b;
        var r :| r in r2 && Reach(succ, r, n);
        assert r in r1 + r2;
      }
    }
  }

  /** Marking a node and then exploring from all its successors explores from the node. */
  lemma ExploredNode<N(!new)>(succ: N -> set<N>, a: set<N>, c: set<N>, n: N)
    requires Explored(succ, a + {n}, c, succ(n))
    ensures Explored(succ, a, c, {n})
  {
    ReachSelf(succ, n);
    forall m | m in c - a ensures succ(m) <= c && exists r :: r in {n} && Reach(succ, r, m) {
      if m != n {
        assert m in c - (a + {n});
        var r :| r in succ(n) && Reach(succ, r, m);
        EdgeReach(succ, n, r, m);
      }
      assert n in {n} && Reach(succ, n, m);
    }
  }

  /** Starting from nothing visited, exploration computes exactly the reachable nodes. */
  lemma ExploredIsReachable<N(!new)>(succ: N -> set<N>, after: set<N>, root: N)
    requires Explored(succ, {}, after, {root})
    ensures forall n :: n in after <==> Reach(succ, root, n)
  {
    assert after - {} == after;
    assert Closed(succ, after);
    forall n ensures n in after <==> Reach(succ, root, n) {
      if n in after {
        assert n in after - {};
        var r :| r in {root} && Reach(succ, r, n);
      }
      if Reach(succ, root, n) {
        ClosedHoldsReachable(succ, after, root, n);
      }
    }
  }
}
