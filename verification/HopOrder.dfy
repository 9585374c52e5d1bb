// When the results of a scan come out in hop order: always with one worker, and not always
// with any other number, because a batch may straddle two levels.
module HopOrder {
  import opened Entities
  import opened Walks
  import opened VisitedGuard
  import opened ScanMachine

  // The promise of breadth-first order for a configured concurrency.
  ghost predicate AlwaysInHopOrder(maxConcurrency: int) {
    forall g: PluginGraph, seed: Trace, run: seq<Scan> ::
      IsFinishedRun(g, maxConcurrency, seed, run) ==> InHopOrder(g, seed, Results(run))
  }

  function Node(n: nat): Trace {
    Trace(Decimal(n), "username")
  }

  lemma NodeInjective(m: nat, n: nat)
    ensures Node(m) == Node(n) <==> m == n
  {
    if Node(m) == Node(n) {
      DecimalInjective(m, n);
    }
  }

  function Nodes(n: nat): (all: seq<Trace>)
    ensures |all| == n && forall i :: 0 <= i < n ==> all[i] == Node(i)
  {
    seq(n, i requires 0 <= i < n => Node(i))
  }

  lemma InNodes(n: nat, m: nat)
    ensures Node(m) in Nodes(n) <==> m < n
  {
    if Node(m) in Nodes(n) {
      var i :| 0 <= i < n && Nodes(n)[i] == Node(m);
      NodeInjective(i, m);
    }
    assert m < n ==> Nodes(n)[m] == Node(m);
  }

  lemma NodesGrow(n: nat)
    ensures Nodes(n) + [Node(n)] == Nodes(n + 1)
  {
  }

  // 0 finds 1..c+1; 1 finds c+2, which finds c+4; c+1 finds c+3.
  function Straddling(c: nat): PluginGraph {
    t =>
      if t == Node(0) then Found(seq(c + 1, i requires 0 <= i < c + 1 => Find("p", Node(i + 1))))
      else if t == Node(1) then Found([Find("p", Node(c + 2))])
      else if t == Node(c + 1) then Found([Find("p", Node(c + 3))])
      else if t == Node(c + 2) then Found([Find("p", Node(c + 4))])
      else Found([])
  }

  function Level(c: nat, t: Trace): nat {
    if t == Node(0) then 0
    else if t == Node(c + 2) || t == Node(c + 3) then 2
    else if t == Node(c + 4) then 3
    else 1
  }

  lemma FirstFinds(c: nat, f: Find)
    ensures f in Finds(Straddling(c), Node(0)) <==> exists i: nat :: 0 < i <= c + 1 && f == Find("p", Node(i))
  {
    var finds := Finds(Straddling(c), Node(0));
    assert |finds| == c + 1 && forall i :: 0 <= i < c + 1 ==> finds[i] == Find("p", Node(i + 1));
    if i: nat :| 0 < i <= c + 1 && f == Find("p", Node(i)) {
      assert finds[i - 1] == f;
    }
  }

  lemma LaterFinds(c: nat, n: nat)
    requires c >= 2 && n > 0
    ensures Finds(Straddling(c), Node(n)) ==
            if n == 1 then [Find("p", Node(c + 2))]
            else if n == c + 1 then [Find("p", Node(c + 3))]
            else if n == c + 2 then [Find("p", Node(c + 4))]
            else []
  {
    NodeInjective(n, 0);
    NodeInjective(n, 1);
    NodeInjective(n, c + 1);
    NodeInjective(n, c + 2);
  }

  // Every link leads to the next level, so levels are distances.
  lemma LinksDescend(c: nat, a: Trace, b: Trace)
    requires c >= 2 && IsChild(Straddling(c), a, b)
    ensures Level(c, b) == Level(c, a) + 1
  {
    forall m: nat, n: nat
      ensures Node(m) == Node(n) <==> m == n
    {
      NodeInjective(m, n);
    }
    var f :| f in Finds(Straddling(c), a) && f.child == b;
    if a == Node(0) {
      FirstFinds(c, f);
    }
  }

  lemma {:induction false} WalkLength(c: nat, w: seq<Trace>)
    requires c >= 2 && IsWalk(Children(Straddling(c)), w) && w[0] == Node(0)
    ensures |w| == Level(c, w[|w| - 1]) + 1
    decreases |w|
  {
    if |w| > 1 {
      WalkLength(c, w[..|w| - 1]);
      assert Children(Straddling(c))(w[|w| - 2], w[|w| - 1]);
      LinksDescend(c, w[|w| - 2], w[|w| - 1]);
    }
  }

  lemma DistancesOfTheLastTwo(c: nat)
    requires c >= 2
    ensures Distance(Children(Straddling(c)), Node(0), Node(c + 4), 3)
    ensures Distance(Children(Straddling(c)), Node(0), Node(c + 3), 2)
  {
    var g := Straddling(c);
    forall m: nat, n: nat
      ensures Node(m) == Node(n) <==> m == n
    {
      NodeInjective(m, n);
    }
    FirstFinds(c, Find("p", Node(1)));
    FirstFinds(c, Find("p", Node(c + 1)));
    assert Find("p", Node(c + 2)) in Finds(g, Node(1));
    assert Find("p", Node(c + 3)) in Finds(g, Node(c + 1));
    assert Find("p", Node(c + 4)) in Finds(g, Node(c + 2));
    var far, near := [Node(0), Node(1), Node(c + 2), Node(c + 4)], [Node(0), Node(c + 1), Node(c + 3)];
    assert Joins(Children(g), Node(0), Node(c + 4), far);
    assert Joins(Children(g), Node(0), Node(c + 3), near);
    forall t, w | Joins(Children(g), Node(0), t, w)
      ensures |w| == Level(c, t) + 1
    {
      WalkLength(c, w);
    }
  }

  function FirstDiscoveries(n: nat): (ds: seq<Discovery>)
    ensures |ds| == n && forall i :: 0 <= i < n ==> ds[i] == Discovery(Node(0), "p", Node(i + 1))
  {
    seq(n, i requires 0 <= i < n => Discovery(Node(0), "p", Node(i + 1)))
  }

  lemma {:induction false} AdmitFirst(n: nat)
    ensures Admit(Nodes(1), FirstDiscoveries(n)) == Nodes(n + 1)
  {
    if n > 0 {
      AdmitFirst(n - 1);
      assert FirstDiscoveries(n)[..n - 1] == FirstDiscoveries(n - 1);
      InNodes(n, n);
      NodesGrow(n);
    }
  }

  // The batch holding c+1 (level 1) and c+2 (level 2) may report the deeper find first.
  function StraddlingRun(c: nat): seq<Scan> {
    var last := Nodes(c + 3) + [Node(c + 4), Node(c + 3)];
    [Start(Node(0)), Scan(Nodes(c + 2), 1), Scan(Nodes(c + 3), c + 1), Scan(last, c + 3), Scan(last, c + 5)]
  }

  // The discoveries of node 0.
  lemma FirstBatchArrives(c: nat)
    ensures Arrives(Straddling(c), [Node(0)], FirstDiscoveries(c + 1))
  {
    var ds := FirstDiscoveries(c + 1);
    forall d: Discovery
      ensures d in ds <==> d.parent in [Node(0)] && IsDiscovery(Straddling(c), d)
    {
      FirstFinds(c, Find(d.pluginName, d.child));
      if i: nat :| 0 < i <= c + 1 && Find(d.pluginName, d.child) == Find("p", Node(i)) {
        assert ds[i - 1] == Discovery(Node(0), "p", Node(i));
      }
    }
  }

  lemma Batch1(c: nat)
    requires c >= 2
    ensures Step(Straddling(c), c, StraddlingRun(c)[0], StraddlingRun(c)[1])
  {
    var s := Start(Node(0));
    assert Batch(s, c) == [Node(0)] == Nodes(1);
    FirstBatchArrives(c);
    AdmitFirst(c + 1);
    StepBy(Straddling(c), c, s, StraddlingRun(c)[1], FirstDiscoveries(c + 1));
  }

  // The only discovery of nodes 1..c is the one of node 1.
  lemma SecondBatchFinds(c: nat, batch: seq<Trace>, e: Discovery)
    requires c >= 2 && |batch| == c && forall i :: 0 <= i < c ==> batch[i] == Node(i + 1)
    ensures e == Discovery(Node(1), "p", Node(c + 2)) <==> e.parent in batch && IsDiscovery(Straddling(c), e)
  {
    LaterFinds(c, 1);
    assert batch[0] == Node(1);
    if e.parent in batch {
      var i :| 0 <= i < c && batch[i] == e.parent;
      LaterFinds(c, i + 1);
    }
  }

  lemma SecondBatchArrives(c: nat)
    requires c >= 2
    ensures Arrives(Straddling(c), Batch(Scan(Nodes(c + 2), 1), c), [Discovery(Node(1), "p", Node(c + 2))])
  {
    var batch, d := Batch(Scan(Nodes(c + 2), 1), c), Discovery(Node(1), "p", Node(c + 2));
    assert |batch| == c && forall i :: 0 <= i < c ==> batch[i] == Node(i + 1);
    forall e: Discovery
      ensures e in [d] <==> e.parent in batch && IsDiscovery(Straddling(c), e)
    {
      SecondBatchFinds(c, batch, e);
    }
  }

  lemma Batch2(c: nat)
    requires c >= 2
    ensures Step(Straddling(c), c, Scan(Nodes(c + 2), 1), Scan(Nodes(c + 3), c + 1))
  {
    var s, d := Scan(Nodes(c + 2), 1), Discovery(Node(1), "p", Node(c + 2));
    SecondBatchArrives(c);
    InNodes(c + 2, c + 2);
    AdmitOne(s.all, d);
    NodesGrow(c + 2);
    StepBy(Straddling(c), c, s, Scan(Nodes(c + 3), c + 1), [d]);
  }

  lemma Pair<T>(s: seq<T>, i: nat)
    requires i + 2 <= |s|
    ensures s[i..i + 2] == [s[i], s[i + 1]]
  {
  }

  lemma ThirdBatch(c: nat)
    requires c >= 2
    ensures Batch(Scan(Nodes(c + 3), c + 1), c) == [Node(c + 1), Node(c + 2)]
  {
    var all := Nodes(c + 3);
    assert BatchSize(Scan(all, c + 1), c) == 2;
    Pair(all, c + 1);
  }

  // The only discoveries of nodes c+1 and c+2, the deeper one reported first.
  lemma ThirdBatchArrives(c: nat)
    requires c >= 2
    ensures Arrives(Straddling(c), Batch(Scan(Nodes(c + 3), c + 1), c),
                    [Discovery(Node(c + 2), "p", Node(c + 4)), Discovery(Node(c + 1), "p", Node(c + 3))])
  {
    ThirdBatch(c);
    LaterFinds(c, c + 1);
    LaterFinds(c, c + 2);
    TwoArrive(Straddling(c), Node(c + 1), Find("p", Node(c + 3)), Node(c + 2), Find("p", Node(c + 4)));
  }

  lemma TwoArrive(g: PluginGraph, a: Trace, fa: Find, b: Trace, fb: Find)
    requires Finds(g, a) == [fa] && Finds(g, b) == [fb]
    ensures Arrives(g, [a, b], [Discovery(b, fb.pluginName, fb.child), Discovery(a, fa.pluginName, fa.child)])
  {
  }

  lemma Batch3(c: nat)
    requires c >= 2
    ensures Step(Straddling(c), c, Scan(Nodes(c + 3), c + 1), Scan(Nodes(c + 3) + [Node(c + 4), Node(c + 3)], c + 3))
  {
    var s := Scan(Nodes(c + 3), c + 1);
    var deep, shallow := Discovery(Node(c + 2), "p", Node(c + 4)), Discovery(Node(c + 1), "p", Node(c + 3));
    ThirdBatchArrives(c);
    InNodes(c + 3, c + 3);
    InNodes(c + 3, c + 4);
    NodeInjective(c + 3, c + 4);
    AdmitTwo(s.all, deep, shallow);
    StepBy(Straddling(c), c, s, Scan(Nodes(c + 3) + [Node(c + 4), Node(c + 3)], c + 3), [deep, shallow]);
  }

  lemma AdmitTwo(all: seq<Trace>, d: Discovery, e: Discovery)
    requires d.child !in all && e.child !in all && d.child != e.child
    ensures Admit(all, [d, e]) == all + [d.child, e.child]
  {
    AdmitOne(all, d);
    assert [d, e][..1] == [d];
  }

  lemma Batch4(c: nat)
    requires c >= 2
    ensures Step(Straddling(c), c, StraddlingRun(c)[3], StraddlingRun(c)[4])
  {
    var s := StraddlingRun(c)[3];
    assert Batch(s, c) == [Node(c + 4), Node(c + 3)];
    LaterFinds(c, c + 4);
    LaterFinds(c, c + 3);
    assert Arrives(Straddling(c), Batch(s, c), []);
    assert Admit(s.all, []) == s.all;
  }

  lemma StraddlingRunIsOutOfOrder(c: nat)
    requires c >= 2
    ensures IsFinishedRun(Straddling(c), c, Node(0), StraddlingRun(c))
    ensures !InHopOrder(Straddling(c), Node(0), Results(StraddlingRun(c)))
  {
    Batch1(c);
    Batch2(c);
    Batch3(c);
    Batch4(c);
    DistancesOfTheLastTwo(c);
    var all := Results(StraddlingRun(c));
    assert all[c + 3] == Node(c + 4) && all[c + 4] == Node(c + 3);
  }

  // The list a scan returns is in hop order for every plugin graph and every completion
  // order exactly when one trace is processed at a time.
  lemma HopOrderNeedsOneWorker(maxConcurrency: int)
    requires maxConcurrency >= 1
    ensures AlwaysInHopOrder(maxConcurrency) <==> maxConcurrency == 1
  {
    if maxConcurrency == 1 {
      forall g: PluginGraph, seed: Trace, run: seq<Scan> | IsFinishedRun(g, 1, seed, run)
        ensures InHopOrder(g, seed, Results(run))
      {
        OneWorkerIsBreadthFirst(g, seed, run);
      }
    } else {
      StraddlingRunIsOutOfOrder(maxConcurrency);
    }
  }
}
