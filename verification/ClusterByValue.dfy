/**
 Clusters of distinct pull requests as a function of their set alone, which is why
 `cluster_prs` gives the same groups for every input order.
 */
module ClusterByValue {
  import opened Order
  import opened Models
  import opened GroupIds
  import opened Jaccard
  import opened Graphs
  import opened Cluster

  ghost function SimilarPulls(): (PullRequest, PullRequest) -> bool {
    (p: PullRequest, q: PullRequest) => Similar(p.PathSet(), q.PathSet())
  }

  function PullSet(prs: seq<PullRequest>): set<PullRequest> { set p | p in prs }

  ghost predicate DistinctSet(pulls: set<PullRequest>) {
    forall p, q | p in pulls && q in pulls && p.number == q.number :: p == q
  }

  ghost function ComponentOf(pulls: set<PullRequest>, p: PullRequest): set<PullRequest> {
    Component(SimilarPulls(), pulls, p)
  }

  ghost function PullComponents(pulls: set<PullRequest>): set<set<PullRequest>> {
    set p | p in pulls :: ComponentOf(pulls, p)
  }

  predicate NumberLe(p: PullRequest, q: PullRequest) { p.number <= q.number }

  function ByNumber(c: set<PullRequest>): (r: seq<PullRequest>)
    requires DistinctSet(c)
    ensures |r| == |c| && forall p :: p in r <==> p in c
    ensures forall i, j | 0 <= i < j < |r| :: r[i] != r[j] && r[i].number <= r[j].number
  {
    Ordered(c, NumberLe)
  }

  /** The members of a cluster by number, as a total function. */
  ghost function Listed(c: set<PullRequest>): seq<PullRequest> {
    if DistinctSet(c) then ByNumber(c) else []
  }

  function LeastNumber(c: set<PullRequest>): int { MinOf(set p | p in c :: p.number) }

  predicate LeastNumberLe(c: set<PullRequest>, d: set<PullRequest>) { LeastNumber(c) <= LeastNumber(d) }

  lemma SimilarPullsSymmetric()
    ensures Symmetric(SimilarPulls())
  {
    forall p, q | SimilarPulls()(p, q)
      ensures SimilarPulls()(q, p)
    {
      SimilarSymmetric(p.PathSet(), q.PathSet());
    }
  }

  lemma OwnComponent(pulls: set<PullRequest>, p: PullRequest)
    requires p in pulls
    ensures p in ComponentOf(pulls, p) && ComponentOf(pulls, p) in PullComponents(pulls)
  {
    ConnectedReflexive(SimilarPulls(), pulls, p);
  }

  lemma ComponentIsSubset(pulls: set<PullRequest>, c: set<PullRequest>)
    requires c in PullComponents(pulls)
    ensures c <= pulls && c != {}
  {
    var q :| q in pulls && c == ComponentOf(pulls, q);
    OwnComponent(pulls, q);
  }

  /** The components partition the pull requests: a component is that of each of its members. */
  lemma ComponentOfMember(pulls: set<PullRequest>, c: set<PullRequest>, p: PullRequest)
    requires c in PullComponents(pulls) && p in c
    ensures p in pulls && c == ComponentOf(pulls, p)
  {
    SimilarPullsSymmetric();
    var q :| q in pulls && c == ComponentOf(pulls, q);
    ComponentsAgree(SimilarPulls(), pulls, q, p);
  }

  lemma PullComponentOrderTotal(pulls: set<PullRequest>)
    requires DistinctSet(pulls)
    ensures TotalOn(LeastNumberLe, PullComponents(pulls))
  {
    forall c, d | c in PullComponents(pulls) && d in PullComponents(pulls) && LeastNumberLe(c, d) && LeastNumberLe(d, c)
      ensures c == d
    {
      LeastPull(pulls, c);
      LeastPull(pulls, d);
      var p :| p in c && p.number == LeastNumber(c);
      var q :| q in d && q.number == LeastNumber(d);
      ComponentOfMember(pulls, c, p);
      ComponentOfMember(pulls, d, q);
    }
  }

  lemma LeastPull(pulls: set<PullRequest>, c: set<PullRequest>)
    requires c in PullComponents(pulls)
    ensures c <= pulls && exists p :: p in c && p.number == LeastNumber(c)
  {
    var p0 :| p0 in pulls && c == ComponentOf(pulls, p0);
    OwnComponent(pulls, p0);
    var numbers := set p | p in c :: p.number;
    assert p0.number in numbers;
    assert LeastNumber(c) in numbers;
  }

  /** The clusters of a set of pull requests, by least number. */
  ghost function Clusters(pulls: set<PullRequest>): (cs: seq<set<PullRequest>>)
    requires DistinctSet(pulls)
    ensures |cs| == |PullComponents(pulls)| && forall c :: c in cs <==> c in PullComponents(pulls)
    ensures forall k, l | 0 <= k < l < |cs| :: cs[k] != cs[l] && LeastNumber(cs[k]) <= LeastNumber(cs[l])
  {
    PullComponentOrderTotal(pulls);
    Ordered(PullComponents(pulls), LeastNumberLe)
  }

  ghost function GroupsOfSets(cs: seq<set<PullRequest>>): (groups: seq<Group>)
    ensures |groups| == |cs| && forall k | 0 <= k < |cs| :: groups[k] == BuildGroup(GroupId(k + 1), Listed(cs[k]))
  {
    seq(|cs|, k requires 0 <= k < |cs| => BuildGroup(GroupId(k + 1), Listed(cs[k])))
  }

  ghost function ClusterGroups(pulls: set<PullRequest>): seq<Group>
    requires DistinctSet(pulls)
  {
    GroupsOfSets(Clusters(pulls))
  }

  // ---- from positions to values ----

  ghost function Values(prs: seq<PullRequest>, c: set<int>): set<PullRequest>
    requires c <= Nodes(prs)
  {
    set i | i in c :: prs[i]
  }

  lemma DistinctPulls(prs: seq<PullRequest>)
    requires DistinctNumbers(prs)
    ensures DistinctSet(PullSet(prs))
    ensures forall i, j | 0 <= i < |prs| && 0 <= j < |prs| && prs[i] == prs[j] :: i == j
  {
    forall p, q | p in prs && q in prs && p.number == q.number
      ensures p == q
    {
      var i :| 0 <= i < |prs| && prs[i] == p;
      var j :| 0 <= j < |prs| && prs[j] == q;
      assert i == j;
    }
  }

  lemma LinkedIffConnectedPulls(prs: seq<PullRequest>, i: int, j: int)
    requires DistinctNumbers(prs) && i in Nodes(prs) && j in Nodes(prs)
    ensures Linked(prs, i, j) <==> Connected(SimilarPulls(), PullSet(prs), prs[i], prs[j])
  {
    var e, n, s := Edges(prs), Nodes(prs), PullSet(prs);
    if Linked(prs, i, j) {
      var w :| WalkBetween(e, n, w, i, j);
      var v := seq(|w|, k requires 0 <= k < |w| => assert w[k] in n; prs[w[k]]);
      forall k | 0 <= k < |v| - 1 ensures SimilarPulls()(v[k], v[k + 1]) { assert e(w[k], w[k + 1]); }
      assert WalkBetween(SimilarPulls(), s, v, prs[i], prs[j]);
    }
    if Connected(SimilarPulls(), s, prs[i], prs[j]) {
      DistinctPulls(prs);
      var v :| WalkBetween(SimilarPulls(), s, v, prs[i], prs[j]);
      var w := seq(|v|, k requires 0 <= k < |v| => assert v[k] in s; PositionOf(prs, v[k]));
      forall k | 0 <= k < |w| - 1 ensures e(w[k], w[k + 1]) { assert SimilarPulls()(v[k], v[k + 1]); }
      assert WalkBetween(e, n, w, i, j);
    }
  }

  ghost function PositionOf(prs: seq<PullRequest>, p: PullRequest): (i: int)
    requires p in prs
    ensures i in Nodes(prs) && prs[i] == p
  {
    var i :| 0 <= i < |prs| && prs[i] == p;
    i
  }

  lemma ComponentValues(prs: seq<PullRequest>, i: int)
    requires DistinctNumbers(prs) && i in Nodes(prs)
    ensures Values(prs, ComponentAt(prs, i)) == ComponentOf(PullSet(prs), prs[i])
  {
    forall p | p in PullSet(prs)
      ensures p in Values(prs, ComponentAt(prs, i)) <==> p in ComponentOf(PullSet(prs), prs[i])
    {
      var j := PositionOf(prs, p);
      LinkedIffConnectedPulls(prs, i, j);
      DistinctPulls(prs);
    }
  }

  lemma MembersAreValues(prs: seq<PullRequest>, c: set<int>)
    requires c <= Nodes(prs)
    ensures forall p :: p in MembersOf(prs, c) <==> p in Values(prs, c)
  {
    var order, m := SortMembers(prs, c), MembersOf(prs, c);
    forall p | p in m
      ensures p in Values(prs, c)
    {
      var k :| 0 <= k < |m| && m[k] == p;
      assert order[k] in c;
    }
    forall p | p in Values(prs, c)
      ensures p in m
    {
      var i :| i in c && prs[i] == p;
      assert i in order;
      var k :| 0 <= k < |order| && order[k] == i;
      assert m[k] == p;
    }
  }

  lemma MembersAscend(prs: seq<PullRequest>, c: set<int>, k: int, l: int)
    requires DistinctNumbers(prs) && c <= Nodes(prs) && 0 <= k < l < |MembersOf(prs, c)|
    ensures MembersOf(prs, c)[k].number < MembersOf(prs, c)[l].number
  {
    var order := SortMembers(prs, c);
    var i, j := order[k], order[l];
    assert i in c && j in c && i != j && MemberLe(prs, i, j);
    assert prs[i].number != prs[j].number;
  }

  lemma MembersByNumber(prs: seq<PullRequest>, c: set<int>)
    requires DistinctNumbers(prs) && c <= Nodes(prs)
    ensures DistinctSet(Values(prs, c)) && MembersOf(prs, c) == ByNumber(Values(prs, c))
  {
    DistinctPulls(prs);
    assert Values(prs, c) <= PullSet(prs);
    MembersAreValues(prs, c);
    forall k, l | 0 <= k < l < |MembersOf(prs, c)|
      ensures MembersOf(prs, c)[k] != MembersOf(prs, c)[l] && NumberLe(MembersOf(prs, c)[k], MembersOf(prs, c)[l])
    {
      MembersAscend(prs, c, k, l);
    }
    OrderedUnique(Values(prs, c), NumberLe, MembersOf(prs, c));
  }

  lemma MinNumberOfValues(prs: seq<PullRequest>, c: set<int>)
    requires c <= Nodes(prs)
    ensures MinNumber(prs, c) == LeastNumber(Values(prs, c))
  {
    assert (set i | i in c && 0 <= i < |prs| :: prs[i].number) == (set p | p in Values(prs, c) :: p.number);
  }

  ghost function ValueComponents(prs: seq<PullRequest>): (r: seq<set<PullRequest>>)
    ensures |r| == |Components(prs)|
    ensures forall k | 0 <= k < |r| :: Components(prs)[k] <= Nodes(prs) && r[k] == Values(prs, Components(prs)[k])
  {
    var cs := Components(prs);
    assert forall k | 0 <= k < |cs| :: cs[k] in cs;
    seq(|cs|, k requires 0 <= k < |cs| => Values(prs, cs[k]))
  }

  lemma ValueComponentsAreAll(prs: seq<PullRequest>, c: set<PullRequest>)
    requires DistinctNumbers(prs)
    ensures c in ValueComponents(prs) <==> c in PullComponents(PullSet(prs))
  {
    hide DistinctNumbers, ComponentAt, ComponentOf, ValueComponents, Values;
    ComponentsDisjoint(prs);
    var s, cs, r := PullSet(prs), Components(prs), ValueComponents(prs);
    if c in r {
      var k :| 0 <= k < |r| && r[k] == c;
      assert cs[k] in cs;
      var i :| i in Nodes(prs) && cs[k] == ComponentAt(prs, i);
      ComponentValues(prs, i);
    }
    if c in PullComponents(s) {
      var p :| p in s && c == ComponentOf(s, p);
      var i := PositionOf(prs, p);
      ComponentValues(prs, i);
      assert ComponentAt(prs, i) in cs;
      var k :| 0 <= k < |cs| && cs[k] == ComponentAt(prs, i);
      assert r[k] == c;
    }
  }

  lemma ValuesDiffer(prs: seq<PullRequest>, c: set<int>, d: set<int>)
    requires DistinctNumbers(prs) && c <= Nodes(prs) && d <= Nodes(prs) && c != {} && c !! d
    ensures Values(prs, c) != Values(prs, d)
  {
    DistinctPulls(prs);
    var i :| i in c;
    assert prs[i] in Values(prs, c);
    assert prs[i] !in Values(prs, d);
  }

  lemma ValueComponentsAscend(prs: seq<PullRequest>, k: int, l: int)
    requires DistinctNumbers(prs) && 0 <= k < l < |ValueComponents(prs)|
    ensures ValueComponents(prs)[k] != ValueComponents(prs)[l]
    ensures LeastNumberLe(ValueComponents(prs)[k], ValueComponents(prs)[l])
  {
    hide DistinctNumbers, MinNumber, LeastNumber, ComponentAt, Nodes, Values;
    ComponentsDisjoint(prs);
    var c, d := Components(prs)[k], Components(prs)[l];
    assert c in Components(prs) && d in Components(prs) && c != d && ComponentLe(prs, c, d);
    MinNumberOfValues(prs, c);
    MinNumberOfValues(prs, d);
    assert MinOf(c) in c && c in ComponentSet(prs) && d in ComponentSet(prs);
    ValuesDiffer(prs, c, d);
  }

  /** For distinct PR numbers the components by position are the components by value, in the same order. */
  lemma ComponentsAreClusters(prs: seq<PullRequest>)
    requires DistinctNumbers(prs)
    ensures DistinctSet(PullSet(prs)) && ValueComponents(prs) == Clusters(PullSet(prs))
  {
    DistinctPulls(prs);
    forall c ensures c in ValueComponents(prs) <==> c in PullComponents(PullSet(prs)) { ValueComponentsAreAll(prs, c); }
    forall k, l | 0 <= k < l < |ValueComponents(prs)|
      ensures ValueComponents(prs)[k] != ValueComponents(prs)[l]
      ensures LeastNumberLe(ValueComponents(prs)[k], ValueComponents(prs)[l])
    {
      ValueComponentsAscend(prs, k, l);
    }
    PullComponentOrderTotal(PullSet(prs));
    OrderedUnique(PullComponents(PullSet(prs)), LeastNumberLe, ValueComponents(prs));
  }

  /** The whole result of `cluster_prs` depends only on the set of pull requests. */
  lemma ClusterResultByValue(prs: seq<PullRequest>)
    requires DistinctNumbers(prs)
    ensures DistinctSet(PullSet(prs)) && GroupsOf(prs, Components(prs)) == ClusterGroups(PullSet(prs))
  {
    ComponentsAreClusters(prs);
    var cs := Components(prs);
    forall k | 0 <= k < |cs|
      ensures GroupsOf(prs, cs)[k] == ClusterGroups(PullSet(prs))[k]
    {
      assert cs[k] in cs;
      assert Clusters(PullSet(prs))[k] == Values(prs, cs[k]);
      MembersByNumber(prs, cs[k]);
    }
  }

  lemma ClusterOrderIndependent(prs: seq<PullRequest>, prs': seq<PullRequest>)
    requires DistinctNumbers(prs) && DistinctNumbers(prs') && multiset(prs) == multiset(prs')
    ensures GroupsOf(prs, Components(prs)) == GroupsOf(prs', Components(prs'))
  {
    ClusterResultByValue(prs);
    ClusterResultByValue(prs');
    assert forall p :: p in prs <==> p in multiset(prs);
    assert forall p :: p in prs' <==> p in multiset(prs');
    assert PullSet(prs) == PullSet(prs');
  }
}
