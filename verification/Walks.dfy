// Walks in a directed graph given by its link relation, and shortest-walk distance.
module Walks {
  type Graph<!N> = (N, N) -> bool

  ghost predicate IsWalk<N>(g: Graph<N>, w: seq<N>) {
    && |w| > 0
    && forall i :: 0 < i < |w| ==> g(w[i - 1], w[i])
  }

  ghost predicate Joins<N>(g: Graph<N>, a: N, b: N, w: seq<N>) {
    IsWalk(g, w) && w[0] == a && w[|w| - 1] == b
  }

  predicate Simple<N(==)>(w: seq<N>) {
    forall i, j :: 0 <= i < j < |w| ==> w[i] != w[j]
  }

  // d is the number of links of a shortest walk from a to b.
  ghost predicate Distance<N(!new)>(g: Graph<N>, a: N, b: N, d: nat) {
    && (exists w :: Joins(g, a, b, w) && |w| == d + 1)
    && (forall w :: Joins(g, a, b, w) ==> |w| >= d + 1)
  }

  ghost predicate Reachable<N(!new)>(g: Graph<N>, a: N, b: N) {
    exists w :: Joins(g, a, b, w)
  }

  lemma DistanceIsUnique<N(!new)>(g: Graph<N>, a: N, b: N, d: nat, e: nat)
    requires Distance(g, a, b, d) && Distance(g, a, b, e)
    ensures d == e
  {
  }

  lemma InConcat<T>(a: seq<T>, b: seq<T>, x: T)
    ensures x in a + b <==> x in a || x in b
  {
  }

  // Cutting out the stretch between two visits of the same node leaves a shorter walk.
  lemma CutLoop<N>(g: Graph<N>, w: seq<N>, i: nat, j: nat) returns (s: seq<N>)
    requires IsWalk(g, w) && i < j < |w| && w[i] == w[j]
    ensures Joins(g, w[0], w[|w| - 1], s) && |s| < |w|
    ensures forall x :: x in s ==> x in w
  {
    s := w[..i + 1] + w[j + 1..];
    forall k | 0 < k < |s|
      ensures g(s[k - 1], s[k])
    {
      if k > i {
        assert s[k] == w[k + j - i];
        assert s[k - 1] == w[k - 1 + j - i];
      }
    }
  }

  // Every walk contains a simple walk between the same ends.
  lemma SimpleWalk<N>(g: Graph<N>, w: seq<N>) returns (s: seq<N>)
    requires IsWalk(g, w)
    ensures Joins(g, w[0], w[|w| - 1], s) && Simple(s) && |s| <= |w|
    ensures forall x :: x in s ==> x in w
    decreases |w|
  {
    if Simple(w) {
      s := w;
    } else {
      var i, j :| 0 <= i < j < |w| && w[i] == w[j];
      var shorter := CutLoop(g, w, i, j);
      s := SimpleWalk(g, shorter);
    }
  }

  lemma SimpleAppend<N>(w: seq<N>, x: N)
    ensures Simple(w + [x]) <==> Simple(w) && x !in w
  {
    var v := w + [x];
    assert v[|w|] == x;
    assert forall i :: 0 <= i < |w| ==> v[i] == w[i];
  }

  // A simple walk of two nodes or more is a simple walk and one link to a node off it.
  lemma SplitSimpleWalk<N>(g: Graph<N>, w: seq<N>) returns (front: seq<N>, a: N, b: N)
    requires IsWalk(g, w) && Simple(w) && |w| > 1
    ensures w == front + [b] && front != [] && front[0] == w[0] && front[|front| - 1] == a
    ensures IsWalk(g, front) && Simple(front) && b !in front && g(a, b)
  {
    var n := |w| - 1;
    front, a, b := w[..n], w[n - 1], w[n];
    SimpleAppend(front, b);
    assert w == front + [b];
  }

  // A simple walk is no longer than the number of nodes it may visit.
  lemma {:induction false} SimpleBound<N>(w: seq<N>, nodes: set<N>)
    requires Simple(w) && forall x :: x in w ==> x in nodes
    ensures |w| <= |nodes|
    decreases |w|
  {
    if w != [] {
      var rest := w[1..];
      forall x | x in rest
        ensures x in nodes - {w[0]}
      {
        var i :| 0 <= i < |rest| && rest[i] == x;
        assert w[i + 1] == x;
      }
      SimpleBound(rest, nodes - {w[0]});
    }
  }

  // A walk bounds the distance between its ends.
  lemma DistanceAtMost<N(!new)>(g: Graph<N>, a: N, b: N, w: seq<N>) returns (d: nat)
    requires Joins(g, a, b, w)
    ensures Distance(g, a, b, d) && d < |w|
    decreases |w|
  {
    if shorter :| Joins(g, a, b, shorter) && |shorter| < |w| {
      d := DistanceAtMost(g, a, b, shorter);
    } else {
      d := |w| - 1;
    }
  }

  // Reachable within a finite set of nodes means reachable in fewer links than it has nodes.
  lemma DistanceWithin<N(!new)>(g: Graph<N>, a: N, b: N, w: seq<N>, nodes: set<N>) returns (d: nat)
    requires Joins(g, a, b, w) && forall x :: x in w ==> x in nodes
    ensures Distance(g, a, b, d) && d < |nodes|
  {
    var s := SimpleWalk(g, w);
    SimpleBound(s, nodes);
    d := DistanceAtMost(g, a, b, s);
  }

  lemma ExtendWalk<N>(g: Graph<N>, a: N, b: N, c: N, w: seq<N>)
    requires Joins(g, a, b, w) && g(b, c)
    ensures Joins(g, a, c, w + [c])
  {
  }

  // Labels that start at 0 and grow by at most one along every link out of a node
  // labelled below the cap bound every walk of at most cap links.
  lemma {:induction false} LabelsBoundWalks<N(!new)>(g: Graph<N>, a: N, dist: map<N, nat>, cap: nat, w: seq<N>)
    requires a in dist && dist[a] == 0
    requires forall u, v :: u in dist && dist[u] < cap && g(u, v) ==> v in dist && dist[v] <= dist[u] + 1
    requires IsWalk(g, w) && w[0] == a && |w| <= cap + 1
    ensures w[|w| - 1] in dist && dist[w[|w| - 1]] < |w|
    decreases |w|
  {
    if |w| > 1 {
      LabelsBoundWalks(g, a, dist, cap, w[..|w| - 1]);
      assert g(w[|w| - 2], w[|w| - 1]);
    }
  }
}
