// How often GetDiscoveryPath returns a row: once for every guarded chain that ends with it,
// where a chain is told by the positions of its edges in the table.
module PathMultiplicity {
  import opened TraceTables
  import opened Walks
  import opened DiscoveryPath
  import VisitedGuard

  type Positions = seq<int>

  // The edges at these positions.
  function Pick(edges: seq<EdgeRow>, at: Positions): (es: seq<EdgeRow>)
    requires forall k :: 0 <= k < |at| ==> 0 <= at[k] < |edges|
    ensures |es| == |at| && forall k :: 0 <= k < |at| ==> es[k] == edges[at[k]]
  {
    seq(|at|, k requires 0 <= k < |at| => edges[at[k]])
  }

  ghost predicate IsChainAt(edges: seq<EdgeRow>, scan: Id, target: Id, at: Positions) {
    (forall k :: 0 <= k < |at| ==> 0 <= at[k] < |edges|) && IsGuardedChain(edges, scan, target, Pick(edges, at))
  }

  // The row a chain ends with.
  ghost predicate EndsAt(edges: seq<EdgeRow>, scan: Id, target: Id, at: Positions, row: PathRow) {
    IsChainAt(edges, scan, target, at) && row == ChainRow(target, Pick(edges, at))
  }

  // ---- The chains behind the rows, computed beside them ----

  // from: the position of the first of these edges in the table.
  ghost function BaseChains(edges: seq<EdgeRow>, scan: Id, target: Id, from: nat): seq<Positions> {
    if edges == [] then []
    else (if StartsAt(edges[0], scan, target) then [[from]] else []) + BaseChains(edges[1..], scan, target, from + 1)
  }

  ghost function BackChains(edges: seq<EdgeRow>, scan: Id, p: PathRow, at: Positions, from: nat): seq<Positions> {
    if edges == [] then []
    else (if Continues(edges[0], p, scan) then [at + [from]] else []) + BackChains(edges[1..], scan, p, at, from + 1)
  }

  ghost function BackAllChains(edges: seq<EdgeRow>, scan: Id, ps: seq<PathRow>, ats: seq<Positions>): seq<Positions>
    requires |ps| == |ats|
  {
    if ps == [] then []
    else BackChains(edges, scan, ps[0], ats[0], 0) + BackAllChains(edges, scan, ps[1..], ats[1..])
  }

  // at[j] is behind rows[j].
  ghost predicate Parallel(edges: seq<EdgeRow>, scan: Id, target: Id, rows: seq<PathRow>, ats: seq<Positions>) {
    |rows| == |ats| && forall j :: 0 <= j < |rows| ==> EndsAt(edges, scan, target, ats[j], rows[j])
  }

  // ---- The first round ----

  lemma {:induction false} BaseChainAt(edges: seq<EdgeRow>, scan: Id, target: Id, from: nat, j: nat)
    requires j < |BaseChains(edges, scan, target, from)|
    ensures |BaseRows(edges, scan, target)| == |BaseChains(edges, scan, target, from)|
    ensures var at := BaseChains(edges, scan, target, from)[j];
            && |at| == 1 && from <= at[0] < from + |edges| && StartsAt(edges[at[0] - from], scan, target)
            && BaseRows(edges, scan, target)[j] == BaseRow(edges[at[0] - from], target)
  {
    BaseLengths(edges, scan, target, from);
    var n := if StartsAt(edges[0], scan, target) then 1 else 0;
    if j >= n {
      BaseChainAt(edges[1..], scan, target, from + 1, j - n);
    }
  }

  lemma {:induction false} BaseLengths(edges: seq<EdgeRow>, scan: Id, target: Id, from: nat)
    ensures |BaseRows(edges, scan, target)| == |BaseChains(edges, scan, target, from)|
  {
    if edges != [] {
      BaseLengths(edges[1..], scan, target, from + 1);
    }
  }

  lemma {:induction false} BaseChainsDiffer(edges: seq<EdgeRow>, scan: Id, target: Id, from: nat)
    ensures Simple(BaseChains(edges, scan, target, from))
  {
    if edges != [] {
      var later := BaseChains(edges[1..], scan, target, from + 1);
      BaseChainsDiffer(edges[1..], scan, target, from + 1);
      forall j | 0 <= j < |later|
        ensures later[j] != [from]
      {
        BaseChainAt(edges[1..], scan, target, from + 1, j);
      }
    }
  }

  lemma {:induction false} BaseChainsAll(edges: seq<EdgeRow>, scan: Id, target: Id, from: nat, i: nat) returns (j: nat)
    requires i < |edges| && StartsAt(edges[i], scan, target)
    ensures j < |BaseChains(edges, scan, target, from)| && BaseChains(edges, scan, target, from)[j] == [from + i]
  {
    if i == 0 {
      j := 0;
    } else {
      j := BaseChainsAll(edges[1..], scan, target, from + 1, i - 1);
      j := j + if StartsAt(edges[0], scan, target) then 1 else 0;
    }
  }

  // ---- One row continued ----

  lemma {:induction false} BackLengths(edges: seq<EdgeRow>, scan: Id, p: PathRow, at: Positions, from: nat)
    ensures |BackFrom(edges, scan, p)| == |BackChains(edges, scan, p, at, from)|
  {
    if edges != [] {
      BackLengths(edges[1..], scan, p, at, from + 1);
    }
  }

  lemma {:induction false} BackChainAt(edges: seq<EdgeRow>, scan: Id, p: PathRow, at: Positions, from: nat, j: nat)
    returns (i: nat)
    requires j < |BackChains(edges, scan, p, at, from)|
    ensures |BackFrom(edges, scan, p)| == |BackChains(edges, scan, p, at, from)|
    ensures i < |edges| && BackChains(edges, scan, p, at, from)[j] == at + [from + i]
    ensures Continues(edges[i], p, scan) && BackFrom(edges, scan, p)[j] == BackRow(edges[i], p)
  {
    BackLengths(edges, scan, p, at, from);
    var n := if Continues(edges[0], p, scan) then 1 else 0;
    if j >= n {
      i := BackChainAt(edges[1..], scan, p, at, from + 1, j - n);
      i := i + 1;
    } else {
      i := 0;
    }
  }

  lemma {:induction false} BackChainsDiffer(edges: seq<EdgeRow>, scan: Id, p: PathRow, at: Positions, from: nat)
    ensures Simple(BackChains(edges, scan, p, at, from))
  {
    if edges != [] {
      var later := BackChains(edges[1..], scan, p, at, from + 1);
      BackChainsDiffer(edges[1..], scan, p, at, from + 1);
      forall j | 0 <= j < |later|
        ensures later[j] != at + [from]
      {
        var i := BackChainAt(edges[1..], scan, p, at, from + 1, j);
        assert later[j][|at|] == from + 1 + i;
      }
    }
  }

  lemma {:induction false} BackChainsAll(edges: seq<EdgeRow>, scan: Id, p: PathRow, at: Positions, from: nat, i: nat)
    returns (j: nat)
    requires i < |edges| && Continues(edges[i], p, scan)
    ensures j < |BackChains(edges, scan, p, at, from)| && BackChains(edges, scan, p, at, from)[j] == at + [from + i]
  {
    if i == 0 {
      j := 0;
    } else {
      j := BackChainsAll(edges[1..], scan, p, at, from + 1, i - 1);
      j := j + if Continues(edges[0], p, scan) then 1 else 0;
    }
  }

  // ---- A round continued ----

  lemma {:induction false} BackAllLengths(edges: seq<EdgeRow>, scan: Id, ps: seq<PathRow>, ats: seq<Positions>)
    requires |ps| == |ats|
    ensures |BackFromAll(edges, scan, ps)| == |BackAllChains(edges, scan, ps, ats)|
  {
    if ps != [] {
      BackLengths(edges, scan, ps[0], ats[0], 0);
      BackAllLengths(edges, scan, ps[1..], ats[1..]);
    }
  }

  lemma {:induction false} BackAllChainAt(edges: seq<EdgeRow>, scan: Id, ps: seq<PathRow>, ats: seq<Positions>, j: nat)
    returns (q: nat, i: nat)
    requires |ps| == |ats| && j < |BackAllChains(edges, scan, ps, ats)|
    ensures |BackFromAll(edges, scan, ps)| == |BackAllChains(edges, scan, ps, ats)|
    ensures q < |ps| && i < |edges| && BackAllChains(edges, scan, ps, ats)[j] == ats[q] + [i]
    ensures Continues(edges[i], ps[q], scan) && BackFromAll(edges, scan, ps)[j] == BackRow(edges[i], ps[q])
  {
    BackAllLengths(edges, scan, ps, ats);
    BackLengths(edges, scan, ps[0], ats[0], 0);
    var n := |BackChains(edges, scan, ps[0], ats[0], 0)|;
    if j < n {
      i := BackChainAt(edges, scan, ps[0], ats[0], 0, j);
      q := 0;
    } else {
      q, i := BackAllChainAt(edges, scan, ps[1..], ats[1..], j - n);
      q := q + 1;
    }
  }

  // All chains of a round have the same length, so what is continued from different chains differs.
  lemma {:induction false} BackAllChainsDiffer(edges: seq<EdgeRow>, scan: Id, ps: seq<PathRow>, ats: seq<Positions>,
      n: nat)
    requires |ps| == |ats| && Simple(ats) && forall j :: 0 <= j < |ats| ==> |ats[j]| == n
    ensures Simple(BackAllChains(edges, scan, ps, ats))
  {
    if ps != [] {
      var first, later := BackChains(edges, scan, ps[0], ats[0], 0), BackAllChains(edges, scan, ps[1..], ats[1..]);
      BackChainsDiffer(edges, scan, ps[0], ats[0], 0);
      BackAllChainsDiffer(edges, scan, ps[1..], ats[1..], n);
      forall j, k | 0 <= j < |first| && 0 <= k < |later|
        ensures first[j] != later[k]
      {
        var i := BackChainAt(edges, scan, ps[0], ats[0], 0, j);
        var q, l := BackAllChainAt(edges, scan, ps[1..], ats[1..], k);
        assert first[j][..n] == ats[0] && later[k][..n] == ats[q + 1];
      }
      SimpleConcat(first, later);
    }
  }

  lemma SimpleConcat(a: seq<Positions>, b: seq<Positions>)
    requires Simple(a) && Simple(b) && forall j, k :: 0 <= j < |a| && 0 <= k < |b| ==> a[j] != b[k]
    ensures Simple(a + b)
  {
  }

  lemma {:induction false} BackAllChainsAll(edges: seq<EdgeRow>, scan: Id, ps: seq<PathRow>, ats: seq<Positions>,
      q: nat, i: nat)
    returns (j: nat)
    requires |ps| == |ats| && q < |ps| && i < |edges| && Continues(edges[i], ps[q], scan)
    ensures j < |BackAllChains(edges, scan, ps, ats)| && BackAllChains(edges, scan, ps, ats)[j] == ats[q] + [i]
  {
    if q == 0 {
      j := BackChainsAll(edges, scan, ps[0], ats[0], 0, i);
    } else {
      j := BackAllChainsAll(edges, scan, ps[1..], ats[1..], q - 1, i);
      j := j + |BackChains(edges, scan, ps[0], ats[0], 0)|;
    }
  }

  // ---- All rounds ----

  ghost function LevelChains(edges: seq<EdgeRow>, scan: Id, target: Id, k: nat): (ats: seq<Positions>)
    ensures |ats| == |PathLevel(edges, scan, target, k)|
  {
    if k == 0 then
      BaseLengths(edges, scan, target, 0);
      BaseChains(edges, scan, target, 0)
    else
      var ps, earlier := PathLevel(edges, scan, target, k - 1), LevelChains(edges, scan, target, k - 1);
      BackAllLengths(edges, scan, ps, earlier);
      BackAllChains(edges, scan, ps, earlier)
  }

  lemma PickAppend(edges: seq<EdgeRow>, at: Positions, i: nat)
    requires (forall k :: 0 <= k < |at| ==> 0 <= at[k] < |edges|) && i < |edges|
    ensures Pick(edges, at + [i]) == Pick(edges, at) + [edges[i]]
  {
  }

  // A chain and an edge that continues its row make the chain behind the next row.
  lemma EndsAtNext(edges: seq<EdgeRow>, scan: Id, target: Id, at: Positions, p: PathRow, i: nat)
    requires EndsAt(edges, scan, target, at, p) && i < |edges| && Continues(edges[i], p, scan)
    ensures EndsAt(edges, scan, target, at + [i], BackRow(edges[i], p))
  {
    PickAppend(edges, at, i);
    var front := Pick(edges, at);
    var es := ContinueChain(edges, scan, target, |front| - 1, p, front, edges[i]);
  }

  // Chains of n edges, each behind the row at its place.
  ghost predicate ParallelOf(edges: seq<EdgeRow>, scan: Id, target: Id, rows: seq<PathRow>, ats: seq<Positions>,
      n: nat)
  {
    Parallel(edges, scan, target, rows, ats) && forall j :: 0 <= j < |ats| ==> |ats[j]| == n
  }

  lemma BaseParallel(edges: seq<EdgeRow>, scan: Id, target: Id)
    ensures ParallelOf(edges, scan, target, BaseRows(edges, scan, target), BaseChains(edges, scan, target, 0), 1)
  {
    var rows, ats := BaseRows(edges, scan, target), BaseChains(edges, scan, target, 0);
    BaseLengths(edges, scan, target, 0);
    forall j | 0 <= j < |ats|
      ensures EndsAt(edges, scan, target, ats[j], rows[j]) && |ats[j]| == 1
    {
      BaseChainAt(edges, scan, target, 0, j);
      BaseIsChain(edges, scan, target, edges[ats[j][0]]);
      assert Pick(edges, ats[j]) == [edges[ats[j][0]]];
    }
  }

  lemma NextParallel(edges: seq<EdgeRow>, scan: Id, target: Id, ps: seq<PathRow>, ats: seq<Positions>, n: nat)
    requires ParallelOf(edges, scan, target, ps, ats, n)
    ensures ParallelOf(edges, scan, target, BackFromAll(edges, scan, ps), BackAllChains(edges, scan, ps, ats), n + 1)
  {
    var rows', ats' := BackFromAll(edges, scan, ps), BackAllChains(edges, scan, ps, ats);
    BackAllLengths(edges, scan, ps, ats);
    forall j | 0 <= j < |ats'|
      ensures EndsAt(edges, scan, target, ats'[j], rows'[j]) && |ats'[j]| == n + 1
    {
      var q, i := BackAllChainAt(edges, scan, ps, ats, j);
      EndsAtNext(edges, scan, target, ats[q], ps[q], i);
    }
  }

  lemma {:induction false} LevelParallel(edges: seq<EdgeRow>, scan: Id, target: Id, k: nat)
    ensures ParallelOf(edges, scan, target, PathLevel(edges, scan, target, k), LevelChains(edges, scan, target, k),
                       k + 1)
  {
    if k == 0 {
      BaseParallel(edges, scan, target);
    } else {
      var ps, ats := PathLevel(edges, scan, target, k - 1), LevelChains(edges, scan, target, k - 1);
      LevelParallel(edges, scan, target, k - 1);
      NextParallel(edges, scan, target, ps, ats, k);
      assert PathLevel(edges, scan, target, k) == BackFromAll(edges, scan, ps);
      assert LevelChains(edges, scan, target, k) == BackAllChains(edges, scan, ps, ats);
    }
  }

  lemma {:induction false} LevelChainsDiffer(edges: seq<EdgeRow>, scan: Id, target: Id, k: nat)
    ensures Simple(LevelChains(edges, scan, target, k))
  {
    if k == 0 {
      BaseChainsDiffer(edges, scan, target, 0);
    } else {
      LevelChainsDiffer(edges, scan, target, k - 1);
      LevelParallel(edges, scan, target, k - 1);
      BackAllChainsDiffer(edges, scan, PathLevel(edges, scan, target, k - 1), LevelChains(edges, scan, target, k - 1),
                          k);
    }
  }

  // The last edge of a guarded chain continues the row of the chain before it.
  lemma SplitChainAt(edges: seq<EdgeRow>, scan: Id, target: Id, at: Positions) returns (front: Positions, i: nat)
    requires IsChainAt(edges, scan, target, at) && |at| > 1
    ensures at == front + [i] && i < |edges| && IsChainAt(edges, scan, target, front)
    ensures Continues(edges[i], ChainRow(target, Pick(edges, front)), scan)
  {
    front, i := at[..|at| - 1], at[|at| - 1];
    assert at == front + [i];
    PickAppend(edges, front, i);
    var es, e := SplitChain(edges, scan, target, Pick(edges, at));
    assert e == Pick(edges, at)[|at| - 1] == edges[i];
    assert es == Pick(edges, at)[..|at| - 1] == Pick(edges, front);
    GuardIsMembershipOf(edges, target, es, e);
  }

  lemma GuardIsMembershipOf(edges: seq<EdgeRow>, target: Id, es: seq<EdgeRow>, e: EdgeRow)
    requires es != [] && (forall i :: 0 < i < |es| ==> es[i].parent.Parent?) && e.parent.Parent?
    requires e.parent.id !in Guarded(target, es)
    ensures !VisitedGuard.Contains(ChainRow(target, es).visited, VisitedGuard.Pattern(e.parent.id))
  {
    VisitedGuard.GuardIsMembership(Guarded(target, es), e.parent.id);
  }

  // The j-th chain of the k-th round.
  ghost predicate IsLevelChain(edges: seq<EdgeRow>, scan: Id, target: Id, k: nat, j: nat, at: Positions) {
    j < |LevelChains(edges, scan, target, k)| && LevelChains(edges, scan, target, k)[j] == at
  }

  lemma {:induction false} LevelChainsAll(edges: seq<EdgeRow>, scan: Id, target: Id, k: nat, at: Positions)
    returns (j: nat)
    requires IsChainAt(edges, scan, target, at) && |at| == k + 1
    ensures IsLevelChain(edges, scan, target, k, j, at)
    decreases k
  {
    if k == 0 {
      j := FirstChain(edges, scan, target, at);
    } else {
      var front, i := SplitChainAt(edges, scan, target, at);
      var q := LevelChainsAll(edges, scan, target, k - 1, front);
      j := NextChain(edges, scan, target, k - 1, q, front, i);
    }
  }

  lemma RowBehind(edges: seq<EdgeRow>, scan: Id, target: Id, k: nat, q: nat)
    requires q < |LevelChains(edges, scan, target, k)|
    ensures EndsAt(edges, scan, target, LevelChains(edges, scan, target, k)[q], PathLevel(edges, scan, target, k)[q])
  {
    LevelParallel(edges, scan, target, k);
  }

  lemma FirstChain(edges: seq<EdgeRow>, scan: Id, target: Id, at: Positions) returns (j: nat)
    requires IsChainAt(edges, scan, target, at) && |at| == 1
    ensures IsLevelChain(edges, scan, target, 0, j, at)
  {
    assert Pick(edges, at) == [edges[at[0]]];
    j := BaseChainsAll(edges, scan, target, 0, at[0]);
  }

  lemma NextChain(edges: seq<EdgeRow>, scan: Id, target: Id, k: nat, q: nat, at: Positions, i: nat) returns (j: nat)
    requires IsLevelChain(edges, scan, target, k, q, at) && i < |edges| && IsChainAt(edges, scan, target, at)
    requires Continues(edges[i], ChainRow(target, Pick(edges, at)), scan)
    ensures IsLevelChain(edges, scan, target, k + 1, j, at + [i])
  {
    var ps, ats := PathLevel(edges, scan, target, k), LevelChains(edges, scan, target, k);
    RowBehind(edges, scan, target, k, q);
    j := BackAllChainsAll(edges, scan, ps, ats, q, i);
    assert LevelChains(edges, scan, target, k + 1) == BackAllChains(edges, scan, ps, ats);
  }

  ghost function DescendingChains(edges: seq<EdgeRow>, scan: Id, target: Id, rounds: nat): (ats: seq<Positions>)
    ensures |ats| == |Descending(edges, scan, target, rounds)|
  {
    if rounds == 0 then []
    else LevelChains(edges, scan, target, rounds - 1) + DescendingChains(edges, scan, target, rounds - 1)
  }

  // Distinct chains of at most n edges, each behind the row at its place.
  ghost predicate Behind(edges: seq<EdgeRow>, scan: Id, target: Id, rows: seq<PathRow>, ats: seq<Positions>, n: nat) {
    && Parallel(edges, scan, target, rows, ats) && Simple(ats)
    && forall j :: 0 <= j < |ats| ==> |ats[j]| <= n
  }

  lemma BehindConcat(edges: seq<EdgeRow>, scan: Id, target: Id, rows: seq<PathRow>, ats: seq<Positions>,
                     rows': seq<PathRow>, ats': seq<Positions>, n: nat)
    requires ParallelOf(edges, scan, target, rows, ats, n + 1) && Simple(ats)
    requires Behind(edges, scan, target, rows', ats', n)
    ensures Behind(edges, scan, target, rows + rows', ats + ats', n + 1)
  {
    ParallelConcat(edges, scan, target, rows, ats, rows', ats');
    SimpleConcat(ats, ats');
  }

  lemma {:induction false} DescendingChainsFacts(edges: seq<EdgeRow>, scan: Id, target: Id, rounds: nat)
    ensures Behind(edges, scan, target, Descending(edges, scan, target, rounds),
                   DescendingChains(edges, scan, target, rounds), rounds)
  {
    if rounds > 0 {
      var k := rounds - 1;
      LevelParallel(edges, scan, target, k);
      LevelChainsDiffer(edges, scan, target, k);
      DescendingChainsFacts(edges, scan, target, k);
      BehindConcat(edges, scan, target, PathLevel(edges, scan, target, k), LevelChains(edges, scan, target, k),
                   Descending(edges, scan, target, k), DescendingChains(edges, scan, target, k), k);
      assert Descending(edges, scan, target, rounds) ==
             PathLevel(edges, scan, target, k) + Descending(edges, scan, target, k);
      assert DescendingChains(edges, scan, target, rounds) ==
             LevelChains(edges, scan, target, k) + DescendingChains(edges, scan, target, k);
    }
  }

  lemma ParallelConcat(edges: seq<EdgeRow>, scan: Id, target: Id, rows: seq<PathRow>, ats: seq<Positions>,
                       rows': seq<PathRow>, ats': seq<Positions>)
    requires Parallel(edges, scan, target, rows, ats) && Parallel(edges, scan, target, rows', ats')
    ensures Parallel(edges, scan, target, rows + rows', ats + ats')
  {
  }

  ghost predicate IsDescendingChain(edges: seq<EdgeRow>, scan: Id, target: Id, rounds: nat, j: nat, at: Positions) {
    j < |DescendingChains(edges, scan, target, rounds)| && DescendingChains(edges, scan, target, rounds)[j] == at
  }

  lemma LevelIsDescending(edges: seq<EdgeRow>, scan: Id, target: Id, k: nat, j: nat, at: Positions)
    requires IsLevelChain(edges, scan, target, k, j, at)
    ensures IsDescendingChain(edges, scan, target, k + 1, j, at)
  {
  }

  lemma DescendingGoesOn(edges: seq<EdgeRow>, scan: Id, target: Id, rounds: nat, j: nat, at: Positions)
    requires IsDescendingChain(edges, scan, target, rounds, j, at)
    ensures IsDescendingChain(edges, scan, target, rounds + 1, |LevelChains(edges, scan, target, rounds)| + j, at)
  {
  }

  lemma {:induction false} DescendingChainsAll(edges: seq<EdgeRow>, scan: Id, target: Id, rounds: nat, at: Positions)
    returns (j: nat)
    requires IsChainAt(edges, scan, target, at) && |at| <= rounds
    ensures IsDescendingChain(edges, scan, target, rounds, j, at)
  {
    if |at| == rounds {
      j := LevelChainsAll(edges, scan, target, rounds - 1, at);
      LevelIsDescending(edges, scan, target, rounds - 1, j, at);
    } else {
      j := DescendingChainsAll(edges, scan, target, rounds - 1, at);
      DescendingGoesOn(edges, scan, target, rounds - 1, j, at);
      j := |LevelChains(edges, scan, target, rounds - 1)| + j;
    }
  }

  // The answer has one row for every guarded chain, repeated rows included: parallel edges and
  // different ways round give a row each.
  lemma OneRowPerChain(edges: seq<EdgeRow>, scan: Id, target: Id) returns (chains: seq<Positions>)
    ensures |chains| == |GetDiscoveryPath(edges, scan, target)| && Simple(chains)
    ensures forall j :: 0 <= j < |chains| ==>
              EndsAt(edges, scan, target, chains[j], GetDiscoveryPath(edges, scan, target)[j])
    ensures forall at :: IsChainAt(edges, scan, target, at) ==> at in chains
  {
    var n := |Ancestors(edges, scan, target)|;
    chains := DescendingChains(edges, scan, target, n);
    DescendingChainsFacts(edges, scan, target, n);
    forall at | IsChainAt(edges, scan, target, at)
      ensures at in chains
    {
      if |at| > n {
        var j := LevelChainsAll(edges, scan, target, |at| - 1, at);
        PathRecursionStops(edges, scan, target, |at| - 1);
      }
      var j := DescendingChainsAll(edges, scan, target, n, at);
    }
  }
}
