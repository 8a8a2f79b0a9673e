/** Reachability in a graph given by the nodes that follow each node; cycles are allowed. */
module Graphs {

  type Successors<!N(==)> = N -> set<N>

  /** The `seen` map that a walk shares with its recursive calls. */
  class Seen<N(==)> {
    var names: set<N>

    constructor ()
      ensures names == {}
    {
      names := {};
    }
  }

  ghost predicate Path<N(!new)>(next: Successors<N>, p: seq<N>) {
    p != [] && forall i :: 0 < i < |p| ==> p[i] in next(p[i - 1])
  }

  ghost predicate Reachable<N(!new)>(next: Successors<N>, a: N, b: N) {
    exists p :: Path(next, p) && p[0] == a && p[|p| - 1] == b
  }

  /** What follows a node of `names` outside `except` is one of `names` too. */
  ghost predicate Closed<N(!new)>(next: Successors<N>, names: set<N>, except: set<N>) {
    forall a | a in names && a !in except :: next(a) <= names
  }

  lemma ReachesItself<N(!new)>(next: Successors<N>, a: N)
    ensures Reachable(next, a, a)
  {
    assert Path(next, [a]) && [a][0] == a;
  }

  lemma ReachesFirst<N(!new)>(next: Successors<N>, a: N, b: N, c: N)
    requires b in next(a) && Reachable(next, b, c)
    ensures Reachable(next, a, c)
  {
    var p :| Path(next, p) && p[0] == b && p[|p| - 1] == c;
    var q := [a] + p;
    assert Path(next, q) && q[0] == a && q[|q| - 1] == c;
  }

  lemma {:induction false} PathStays<N(!new)>(next: Successors<N>, names: set<N>, p: seq<N>)
    requires Closed(next, names, {}) && Path(next, p) && p[0] in names
    ensures p[|p| - 1] in names
    decreases |p|
  {
    if |p| <= 1 {
    } else {
      assert p[1] in next(p[0]);
      PathStays(next, names, p[1..]);
    }
  }

  /** Every node reachable from a closed set is in it. */
  lemma ClosedHasReachable<N(!new)>(next: Successors<N>, names: set<N>, a: N, b: N)
    requires Closed(next, names, {}) && a in names && Reachable(next, a, b)
    ensures b in names
  {
    var p :| Path(next, p) && p[0] == a && p[|p| - 1] == b;
    PathStays(next, names, p);
  }
}
