/**
 The duplicate-of graph: each pull request marked as a duplicate points to at most one
 other. The cycle check of triage/store.py and the cycle removal of triage/queue.py,
 against one definition of lying on a cycle.
 */
module Duplicates {
  /** `duplicate_of` by PR number. */
  type Edges = map<int, int>

  /** The number k steps of `duplicate_of` away; a number without an edge stays put. */
  ghost function Follow(g: Edges, x: int, k: nat): int {
    if k == 0 then x else
      var y := Follow(g, x, k - 1);
      if y in g then g[y] else y
  }

  ghost predicate OnCycle(g: Edges, x: int) {
    x in g && exists k: nat :: k > 0 && Follow(g, x, k) == x
  }

  ghost predicate Acyclic(g: Edges) {
    forall x | x in g :: !OnCycle(g, x)
  }

  lemma {:induction false} FollowAdd(g: Edges, x: int, m: nat, n: nat)
    ensures Follow(g, Follow(g, x, m), n) == Follow(g, x, m + n)
  {
    if n > 0 { FollowAdd(g, x, m, n - 1); }
  }

  lemma {:induction false} FollowTimes(g: Edges, x: int, k: nat, m: nat)
    requires Follow(g, x, k) == x
    ensures Follow(g, x, m * k) == x
  {
    if m > 0 {
      FollowTimes(g, x, k, m - 1);
      FollowAdd(g, x, (m - 1) * k, k);
      assert (m - 1) * k + k == m * k;
    } else {
      assert m * k == 0;
    }
  }

  lemma {:induction false} FollowStaysOut(g: Edges, x: int, n: nat)
    requires x !in g
    ensures Follow(g, x, n) == x
  {
    if n > 0 { FollowStaysOut(g, x, n - 1); }
  }

  /** A number on a cycle comes back to itself after any number of further steps. */
  lemma ComesBack(g: Edges, x: int, n: nat) returns (more: nat)
    requires OnCycle(g, x)
    ensures Follow(g, x, n + more) == x && Follow(g, Follow(g, x, n), more) == x
  {
    var k: nat :| k > 0 && Follow(g, x, k) == x;
    FollowTimes(g, x, k, n);
    assert n * k >= n;
    more := n * k - n;
    FollowAdd(g, x, n, more);
  }

  lemma CycleNeverLeaves(g: Edges, x: int, n: nat)
    requires OnCycle(g, x)
    ensures Follow(g, x, n) in g
  {
    if Follow(g, x, n) !in g {
      var more := ComesBack(g, x, n);
      FollowStaysOut(g, Follow(g, x, n), more);
    }
  }

  lemma RepeatIsOnCycle(g: Edges, x: int, m: nat, n: nat)
    requires m < n && Follow(g, x, m) == Follow(g, x, n) && Follow(g, x, m) in g
    ensures OnCycle(g, Follow(g, x, m))
  {
    FollowAdd(g, x, m, n - m);
  }

  // ---- chains end ----

  ghost predicate Distinct(s: seq<int>) {
    forall i, j | 0 <= i < j < |s| :: s[i] != s[j]
  }

  lemma {:induction false} DistinctFits(s: seq<int>, keys: set<int>)
    requires Distinct(s) && forall i | 0 <= i < |s| :: s[i] in keys
    ensures |s| <= |keys|
  {
    if s != [] {
      var n := |s| - 1;
      DistinctFits(s[..n], keys - {s[n]});
    }
  }

  ghost function Path(g: Edges, x: int, n: nat): (s: seq<int>)
    ensures |s| == n && forall i | 0 <= i < n :: s[i] == Follow(g, x, i)
  {
    seq(n, i requires 0 <= i < n => Follow(g, x, i))
  }

  lemma {:induction false} StaysOutLater(g: Edges, x: int, m: nat, n: nat)
    requires m <= n && Follow(g, x, m) !in g
    ensures Follow(g, x, n) !in g
  {
    if m < n { StaysOutLater(g, x, m, n - 1); }
  }

  /** Without cycles, following `duplicate_of` ends within as many steps as there are edges. */
  lemma AcyclicChainEnds(g: Edges, x: int)
    requires Acyclic(g)
    ensures Follow(g, x, |g|) !in g
  {
    if Follow(g, x, |g|) in g {
      var s := Path(g, x, |g| + 1);
      forall i: nat, j: nat | i < j < |s|
        ensures s[i] != s[j]
      {
        if s[i] == s[j] {
          if Follow(g, x, i) !in g { StaysOutLater(g, x, i, |g|); }
          RepeatIsOnCycle(g, x, i, j);
        }
      }
      forall i: nat | i < |s|
        ensures s[i] in g.Keys
      {
        if Follow(g, x, i) !in g { StaysOutLater(g, x, i, |g|); }
      }
      DistinctFits(s, g.Keys);
    }
  }

  // ---- removing cycles ----

  ghost function CycleNumbers(g: Edges): set<int> {
    set x | x in g && OnCycle(g, x)
  }

  ghost function WithoutCycles(g: Edges): Edges { g - CycleNumbers(g) }

  lemma {:induction false} FollowWithin(g: Edges, part: Edges, x: int, n: nat)
    requires forall y | y in part :: y in g && part[y] == g[y]
    requires forall i: nat | i < n :: Follow(part, x, i) in part
    ensures Follow(g, x, n) == Follow(part, x, n)
  {
    if n > 0 { FollowWithin(g, part, x, n - 1); }
  }

  /** A part of the edges of an acyclic graph has no cycle either. */
  lemma PartIsAcyclic(g: Edges, part: Edges)
    requires forall y | y in part :: y in g && part[y] == g[y]
    requires forall x | x in part :: !OnCycle(g, x)
    ensures Acyclic(part)
  {
    forall x | x in part
      ensures !OnCycle(part, x)
    {
      if OnCycle(part, x) {
        var k: nat :| k > 0 && Follow(part, x, k) == x;
        forall i: nat | i < k ensures Follow(part, x, i) in part { CycleNeverLeaves(part, x, i); }
        FollowWithin(g, part, x, k);
      }
    }
  }

  /** What is left has no cycle, and only numbers on a cycle lost their edge. */
  lemma WithoutCyclesAcyclic(g: Edges)
    ensures Acyclic(WithoutCycles(g))
    ensures forall x :: x in WithoutCycles(g) <==> x in g && !OnCycle(g, x)
  {
    PartIsAcyclic(g, WithoutCycles(g));
  }

  // ---- the loops ----

  /** The walk from `start` has collected its first numbers, each once, and reached `cursor`. */
  ghost predicate Walked(g: Edges, start: int, order: seq<int>, cursor: int) {
    && cursor == Follow(g, start, |order|)
    && (forall i: nat {:trigger order[i]} | i < |order| :: order[i] == Follow(g, start, i) && order[i] in g)
    && Distinct(order)
  }

  lemma WalkedStep(g: Edges, start: int, order: seq<int>, cursor: int)
    requires Walked(g, start, order, cursor) && cursor in g && cursor !in order
    ensures Walked(g, start, order + [cursor], g[cursor])
  {}

  lemma WalkedFits(g: Edges, start: int, order: seq<int>, cursor: int)
    requires Walked(g, start, order, cursor)
    ensures |order| <= |g.Keys|
  {
    DistinctFits(order, g.Keys);
  }

  lemma LeavesIsNotOnCycle(g: Edges, start: int, n: nat)
    requires Follow(g, start, n) !in g
    ensures !OnCycle(g, start)
  {
    if OnCycle(g, start) { CycleNeverLeaves(g, start, n); }
  }

  /** `keys` lists the keys of the dictionary, in whatever order they were inserted. */
  ghost predicate KeysOf(keys: seq<int>, g: Edges) {
    forall x :: x in keys <==> x in g
  }

  /** The cycle test of `_check_duplicate_cycles`. */
  method HasCycle(g: Edges, keys: seq<int>) returns (cyclic: bool)
    requires KeysOf(keys, g)
    ensures cyclic <==> !Acyclic(g)
  {
    for s := 0 to |keys|
      invariant forall j | 0 <= j < s :: !OnCycle(g, keys[j])
    {
      var start := keys[s];
      var seen, cursor := {}, start;
      ghost var order: seq<int> := [];
      while cursor in g
        invariant Walked(g, start, order, cursor)
        invariant forall x :: x in seen <==> x in order
        decreases |g.Keys| - |order|
      {
        if cursor in seen {
          ghost var i :| 0 <= i < |order| && order[i] == cursor;
          RepeatIsOnCycle(g, start, i, |order|);
          return true;
        }
        WalkedStep(g, start, order, cursor);
        WalkedFits(g, start, order + [cursor], g[cursor]);
        seen := seen + {cursor};
        order := order + [cursor];
        cursor := g[cursor];
      }
      LeavesIsNotOnCycle(g, start, |order|);
    }
    cyclic := false;
  }

  /** Numbers on cycles, each with the whole of its cycle. */
  ghost predicate ClosedCycles(g: Edges, cyclic: set<int>) {
    && (forall x | x in cyclic :: x in g && OnCycle(g, x))
    && (forall x | x in cyclic :: g[x] in cyclic)
  }

  lemma {:induction false} ClosedUnderFollow(g: Edges, cyclic: set<int>, x: int, n: nat)
    requires ClosedCycles(g, cyclic) && x in cyclic
    ensures Follow(g, x, n) in cyclic
  {
    if n > 0 { ClosedUnderFollow(g, cyclic, x, n - 1); }
  }

  /** Reaching a number of a collected cycle: the start is collected, or on no cycle. */
  lemma ReachesCollected(g: Edges, cyclic: set<int>, start: int, n: nat)
    requires ClosedCycles(g, cyclic) && Follow(g, start, n) in cyclic
    ensures OnCycle(g, start) ==> start in cyclic
  {
    if OnCycle(g, start) {
      var more := ComesBack(g, start, n);
      ClosedUnderFollow(g, cyclic, Follow(g, start, n), more);
    }
  }

  lemma LoopTailIsOnCycle(g: Edges, start: int, order: seq<int>, p: nat, i: nat)
    requires p <= i < |order| && Walked(g, start, order, order[p])
    ensures order[i] in g && OnCycle(g, order[i]) && g[order[i]] in order[p..]
  {
    var n := |order|;
    FollowAdd(g, start, n, i - p);
    FollowAdd(g, start, p, i - p);
    assert Follow(g, start, n + (i - p)) == Follow(g, start, i);
    assert order[i] in g;
    RepeatIsOnCycle(g, start, i, n + (i - p));
    assert g[order[i]] == Follow(g, start, i + 1);
    if i + 1 < n {
      assert order[p..][i + 1 - p] == order[i + 1];
    } else {
      assert order[p..][0] == order[p];
    }
  }

  /** The walk closed a loop at position p: its tail is a whole cycle. */
  lemma LoopIsClosed(g: Edges, start: int, order: seq<int>, p: nat, cyclic: set<int>)
    requires p < |order| && Walked(g, start, order, order[p]) && ClosedCycles(g, cyclic)
    ensures ClosedCycles(g, cyclic + set x | x in order[p..])
  {
    var all := cyclic + set x | x in order[p..];
    forall x | x in all
      ensures x in g && OnCycle(g, x) && g[x] in all
    {
      if x in order[p..] {
        var i :| 0 <= i < |order[p..]| && order[p..][i] == x;
        LoopTailIsOnCycle(g, start, order, p, i + p);
      }
    }
  }

  /** The removal loop of `active_dispositions`. */
  method FindCycleNumbers(g: Edges, keys: seq<int>) returns (cyclic: set<int>)
    requires KeysOf(keys, g)
    ensures cyclic == CycleNumbers(g)
  {
    cyclic := {};
    for s := 0 to |keys|
      invariant ClosedCycles(g, cyclic)
      invariant forall j | 0 <= j < s && OnCycle(g, keys[j]) :: keys[j] in cyclic
    {
      cyclic := CollectFrom(g, keys[s], cyclic);
    }
    forall x
      ensures x in cyclic <==> x in CycleNumbers(g)
    {
      if x in CycleNumbers(g) {
        assert x in keys;
      }
    }
  }

  method CollectFrom(g: Edges, start: int, cyclic: set<int>) returns (cyclic': set<int>)
    requires start in g && ClosedCycles(g, cyclic)
    ensures cyclic <= cyclic' && ClosedCycles(g, cyclic')
    ensures OnCycle(g, start) ==> start in cyclic'
  {
    cyclic' := cyclic;
    var order: seq<int> := [];
    var positions: map<int, nat> := map[];
    var cursor := start;
    while cursor in g
      invariant Walked(g, start, order, cursor) && cyclic' == cyclic
      invariant forall x :: x in positions <==> x in order
      invariant forall x | x in positions :: positions[x] < |order| && order[positions[x]] == x
      decreases |g.Keys| - |order|
    {
      if cursor in positions {
        var p := positions[cursor];
        LoopIsClosed(g, start, order, p, cyclic);
        cyclic' := cyclic + set x | x in order[p..];
        assert order[p..][0] == cursor && cursor in cyclic';
        ReachesCollected(g, cyclic', start, |order|);
        return;
      }
      if cursor in cyclic {
        ReachesCollected(g, cyclic, start, |order|);
        return;
      }
      WalkedStep(g, start, order, cursor);
      WalkedFits(g, start, order + [cursor], g[cursor]);
      positions := positions[cursor := |order|];
      order := order + [cursor];
      cursor := g[cursor];
    }
    LeavesIsNotOnCycle(g, start, |order|);
  }
}
