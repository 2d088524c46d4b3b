/**
 The set-similarity join of triage/cluster.py.

 The graph joins two pull requests whose non-empty path sets are similar; the groups
 are its connected components. Nodes are positions in the input, so the statement
 covers inputs that repeat a PR number.
 */
module Cluster {
  import opened Order
  import opened Models
  import opened GroupIds
  import opened Jaccard
  import opened Graphs
  import opened UnionFinds

  // ---- the graph ----

  predicate IsNode(prs: seq<PullRequest>, i: int) { 0 <= i < |prs| }

  function Nodes(prs: seq<PullRequest>): set<int> { set i | 0 <= i < |prs| && IsNode(prs, i) }

  ghost predicate SimilarAt(prs: seq<PullRequest>, i: int, j: int) {
    0 <= i < |prs| && 0 <= j < |prs| && Similar(prs[i].PathSet(), prs[j].PathSet())
  }

  ghost function Edges(prs: seq<PullRequest>): (int, int) -> bool {
    (i, j) => SimilarAt(prs, i, j)
  }

  lemma EdgesSymmetric(prs: seq<PullRequest>)
    ensures Symmetric(Edges(prs))
  {
    forall i, j | SimilarAt(prs, i, j)
      ensures SimilarAt(prs, j, i)
    {
      SimilarSymmetric(prs[i].PathSet(), prs[j].PathSet());
    }
  }

  ghost predicate Linked(prs: seq<PullRequest>, i: int, j: int) {
    Connected(Edges(prs), Nodes(prs), i, j)
  }

  ghost function ComponentAt(prs: seq<PullRequest>, i: int): set<int> {
    Component(Edges(prs), Nodes(prs), i)
  }

  ghost function ComponentSet(prs: seq<PullRequest>): set<set<int>> {
    set i | i in Nodes(prs) :: ComponentAt(prs, i)
  }

  // ---- the sort keys of the result ----

  function MinOf(s: set<int>): (m: int)
    ensures s != {} ==> m in s && forall x | x in s :: m <= x
  {
    if s == {} then 0 else Least(s, IntLe)
  }

  function MinNumber(prs: seq<PullRequest>, c: set<int>): int {
    MinOf(set i | i in c && 0 <= i < |prs| :: prs[i].number)
  }

  /** Key `min(number)`; equal keys keep first-seen order, that is, order of least position. */
  predicate ComponentLe(prs: seq<PullRequest>, c: set<int>, d: set<int>) {
    MinNumber(prs, c) < MinNumber(prs, d)
    || (MinNumber(prs, c) == MinNumber(prs, d) && MinOf(c) <= MinOf(d))
  }

  /** Key `number`; equal keys keep position order. */
  predicate MemberLe(prs: seq<PullRequest>, i: int, j: int) {
    if 0 <= i < |prs| && 0 <= j < |prs| && prs[i].number != prs[j].number then prs[i].number < prs[j].number
    else i <= j
  }

  ghost predicate Disjoint(cs: set<set<int>>) {
    (forall c | c in cs :: c != {}) && forall c, d, x | c in cs && d in cs && x in c && x in d :: c == d
  }

  lemma ComponentOrderTotal(prs: seq<PullRequest>, cs: set<set<int>>)
    requires Disjoint(cs)
    ensures TotalOn((c, d) => ComponentLe(prs, c, d), cs)
  {
    forall c, d | c in cs && d in cs && ComponentLe(prs, c, d) && ComponentLe(prs, d, c)
      ensures c == d
    {
      assert MinOf(c) in c && MinOf(c) in d;
    }
  }

  function SortComponents(prs: seq<PullRequest>, cs: set<set<int>>): (r: seq<set<int>>)
    requires Disjoint(cs)
    ensures |r| == |cs| && forall c :: c in r <==> c in cs
    ensures forall k, l | 0 <= k < l < |r| :: r[k] != r[l] && ComponentLe(prs, r[k], r[l])
  {
    ComponentOrderTotal(prs, cs);
    Ordered(cs, (c, d) => ComponentLe(prs, c, d))
  }

  function SortMembers(prs: seq<PullRequest>, c: set<int>): (r: seq<int>)
    requires c <= Nodes(prs)
    ensures |r| == |c| && forall i :: i in r <==> i in c
    ensures forall k, l | 0 <= k < l < |r| :: r[k] != r[l] && MemberLe(prs, r[k], r[l])
  {
    Ordered(c, (i, j) => MemberLe(prs, i, j))
  }

  function MembersOf(prs: seq<PullRequest>, c: set<int>): seq<PullRequest>
    requires c <= Nodes(prs)
  {
    var order := SortMembers(prs, c);
    assert forall k | 0 <= k < |order| :: order[k] in c;
    seq(|order|, k requires 0 <= k < |order| => prs[order[k]])
  }

  function GroupsOf(prs: seq<PullRequest>, cs: seq<set<int>>): seq<Group>
    requires forall c | c in cs :: c <= Nodes(prs)
  {
    seq(|cs|, k requires 0 <= k < |cs| => BuildGroup(GroupId(k + 1), MembersOf(prs, cs[k])))
  }

  /** The groups are numbered from one in their order. */
  lemma GroupsAreNumbered(prs: seq<PullRequest>, cs: seq<set<int>>, k: nat)
    requires k < |cs| && forall c | c in cs :: c <= Nodes(prs)
    ensures |GroupsOf(prs, cs)| == |cs|
    ensures var gid := GroupsOf(prs, cs)[k].groupId;
            && |gid| >= 4 && gid[0] == 'G' && AllDigits(gid[1..]) && ParseNat(gid[1..]) == k + 1
            && (|gid| > 4 ==> gid[1] != '0')
  {
    GroupIdForm(k + 1);
  }

  // ---- what the union-find must satisfy ----

  /** Every node is related to its representative. */
  ghost predicate SoundFor(r: (int, int) -> bool, nodes: set<int>, rep: map<int, int>) {
    rep.Keys == nodes && forall i {:trigger r(i, rep[i])} | i in rep :: rep[i] in rep && r(i, rep[i])
  }

  ghost predicate Sound(prs: seq<PullRequest>, rep: map<int, int>) {
    SoundFor(ConnectedBy(Edges(prs), Nodes(prs)), Nodes(prs), rep)
  }

  ghost predicate Complete(prs: seq<PullRequest>, rep: map<int, int>) {
    rep.Keys == Nodes(prs) && forall i, j | SimilarAt(prs, i, j) :: rep[i] == rep[j]
  }

  ghost predicate Coarsens(rep: map<int, int>, rep': map<int, int>) {
    rep.Keys == rep'.Keys && forall x, y | x in rep && y in rep && rep[x] == rep[y] :: rep'[x] == rep'[y]
  }

  lemma MergeCoarsens(rep: map<int, int>, a: int, b: int, top: int)
    requires a in rep && b in rep && top in {rep[a], rep[b]}
    ensures Coarsens(rep, Merged(rep, a, b, top)) && Merged(rep, a, b, top)[a] == Merged(rep, a, b, top)[b]
  {}

  lemma RelatedTops(r: (int, int) -> bool, nodes: set<int>, ra: int, a: int, b: int, rb: int)
    requires Equivalence(r, nodes) && {ra, a, b, rb} <= nodes
    requires r(a, ra) && r(a, b) && r(b, rb)
    ensures forall x {:trigger r(x, ra)} {:trigger r(x, rb)} | x in nodes :: r(x, ra) <==> r(x, rb)
  {
    assert r(ra, a);
    assert r(ra, b);
    assert r(ra, rb) && r(rb, ra);
  }

  lemma MergeKeepsSound(r: (int, int) -> bool, nodes: set<int>, rep: map<int, int>, a: int, b: int, top: int)
    requires SoundFor(r, nodes, rep) && a in rep && b in rep && top in {rep[a], rep[b]}
    requires rep[a] in nodes && rep[b] in nodes
    requires forall x {:trigger r(x, rep[a])} {:trigger r(x, rep[b])} | x in nodes :: r(x, rep[a]) <==> r(x, rep[b])
    ensures SoundFor(r, nodes, Merged(rep, a, b, top))
  {
    var rep' := Merged(rep, a, b, top);
    forall i | i in rep'
      ensures rep'[i] in rep' && r(i, rep'[i])
    {
      assert r(i, rep[i]);
    }
  }

  lemma SameClassIffRelated(r: (int, int) -> bool, nodes: set<int>, rep: map<int, int>, x: int, y: int)
    requires Equivalence(r, nodes) && SoundFor(r, nodes, rep)
    requires x in rep && y in rep && rep[x] == rep[y]
    ensures r(x, y)
  {
    assert r(x, rep[x]) && r(y, rep[y]) && r(rep[y], y);
  }

  /** A sound and complete partition is connectivity. */
  lemma ClassIsComponent(prs: seq<PullRequest>, rep: map<int, int>, x: int)
    requires Sound(prs, rep) && Complete(prs, rep) && x in rep
    ensures ComponentAt(prs, x) == Class(rep, rep[x])
  {
    var e, n := Edges(prs), Nodes(prs);
    EdgesSymmetric(prs);
    ConnectedIsEquivalence(e, n);
    forall y | y in n
      ensures y in ComponentAt(prs, x) <==> y in Class(rep, rep[x])
    {
      if y in ComponentAt(prs, x) {
        var w :| WalkBetween(e, n, w, x, y);
        NoEdgeLeavesClass(prs, rep);
        WalkStaysInClass(e, n, rep, w);
      }
      if y in Class(rep, rep[x]) {
        SameClassIffRelated(ConnectedBy(e, n), n, rep, x, y);
      }
    }
  }

  lemma NoEdgeLeavesClass(prs: seq<PullRequest>, rep: map<int, int>)
    requires Complete(prs, rep)
    ensures forall x, y | x in Nodes(prs) && y in Nodes(prs) && Edges(prs)(x, y) :: rep[x] == rep[y]
  {
    forall x, y | x in Nodes(prs) && y in Nodes(prs) && Edges(prs)(x, y)
      ensures rep[x] == rep[y]
    {
      assert SimilarAt(prs, x, y);
    }
  }

  lemma ComponentsDisjoint(prs: seq<PullRequest>)
    ensures Disjoint(ComponentSet(prs))
    ensures forall c | c in ComponentSet(prs) :: c <= Nodes(prs)
  {
    var e, n := Edges(prs), Nodes(prs);
    EdgesSymmetric(prs);
    forall c | c in ComponentSet(prs)
      ensures c != {}
    {
      var i :| i in n && c == ComponentAt(prs, i);
      ConnectedReflexive(e, n, i);
      assert i in c;
    }
    forall c, d, x | c in ComponentSet(prs) && d in ComponentSet(prs) && x in c && x in d
      ensures c == d
    {
      var i :| i in n && c == ComponentAt(prs, i);
      var j :| j in n && d == ComponentAt(prs, j);
      ComponentsAgree(e, n, i, x);
      ComponentsAgree(e, n, j, x);
    }
  }

  // ---- buckets of equal path sets ----

  /** The positions below `n` whose path set is `paths`, in order. */
  function Bucket(prs: seq<PullRequest>, n: nat, paths: set<string>): seq<int>
    requires n <= |prs|
  {
    if n == 0 then [] else
      Bucket(prs, n - 1, paths) + (if prs[n - 1].PathSet() == paths then [n - 1] else [])
  }

  lemma {:induction false} BucketMembers(prs: seq<PullRequest>, n: nat, paths: set<string>)
    requires n <= |prs|
    ensures forall i :: i in Bucket(prs, n, paths) <==> 0 <= i < n && prs[i].PathSet() == paths
  {
    if n > 0 { BucketMembers(prs, n - 1, paths); }
  }

  /** The buckets hold exactly the non-empty path sets among the first `n` positions. */
  ghost predicate BucketsOf(prs: seq<PullRequest>, n: nat, buckets: map<set<string>, seq<int>>)
    requires n <= |prs|
  {
    && {} !in buckets
    && (forall paths | paths in buckets :: buckets[paths] == Bucket(prs, n, paths))
    && (forall paths | paths != {} :: paths in buckets <==> Bucket(prs, n, paths) != [])
  }

  lemma BucketsStep(prs: seq<PullRequest>, i: nat, buckets: map<set<string>, seq<int>>, paths: set<string>)
    requires i < |prs| && BucketsOf(prs, i, buckets) && paths == prs[i].PathSet()
    ensures paths == {} ==> BucketsOf(prs, i + 1, buckets)
    ensures paths != {} ==>
              BucketsOf(prs, i + 1, buckets[paths := (if paths in buckets then buckets[paths] else []) + [i]])
  {
    forall p
      ensures Bucket(prs, i + 1, p) == Bucket(prs, i, p) + (if paths == p then [i] else [])
    {}
  }

  method FillBuckets(prs: seq<PullRequest>) returns (buckets: map<set<string>, seq<int>>)
    ensures BucketsOf(prs, |prs|, buckets)
  {
    buckets := map[];
    for i := 0 to |prs|
      invariant BucketsOf(prs, i, buckets)
    {
      var paths := prs[i].PathSet();
      BucketsStep(prs, i, buckets, paths);
      if paths != {} {
        buckets := buckets[paths := (if paths in buckets then buckets[paths] else []) + [i]];
      }
    }
  }

  /** Key `(min number, tuple(sorted(paths)))`. */
  predicate BucketLe(prs: seq<PullRequest>, p: set<string>, q: set<string>) {
    var m, n := BucketMin(prs, p), BucketMin(prs, q);
    m < n || (m == n && Lex(StringLe, SortedStrings(p), SortedStrings(q)))
  }

  function BucketMin(prs: seq<PullRequest>, p: set<string>): int {
    MinOf(set i | 0 <= i < |prs| && prs[i].PathSet() == p :: prs[i].number)
  }

  lemma BucketOrderTotal(prs: seq<PullRequest>, keys: set<set<string>>)
    ensures TotalOn((p, q) => BucketLe(prs, p, q), keys)
  {
    StringTotal();
    forall p, q
      ensures Lex(StringLe, SortedStrings(p), SortedStrings(q)) || Lex(StringLe, SortedStrings(q), SortedStrings(p))
      ensures Lex(StringLe, SortedStrings(p), SortedStrings(q)) && Lex(StringLe, SortedStrings(q), SortedStrings(p)) ==>
                p == q
    {
      LexTotalPair(StringLe, SortedStrings(p), SortedStrings(q));
      if SortedStrings(p) == SortedStrings(q) {
        assert forall x :: x in p <==> x in SortedStrings(p);
      }
    }
    forall p, q, r | Lex(StringLe, SortedStrings(p), SortedStrings(q))
      && Lex(StringLe, SortedStrings(q), SortedStrings(r))
      ensures Lex(StringLe, SortedStrings(p), SortedStrings(r))
    {
      LexTransitive(StringLe, SortedStrings(p), SortedStrings(q), SortedStrings(r));
    }
  }

  function SortBuckets(prs: seq<PullRequest>, keys: set<set<string>>): (r: seq<set<string>>)
    ensures |r| == |keys| && forall p :: p in r <==> p in keys
    ensures forall k, l | 0 <= k < l < |r| :: r[k] != r[l]
  {
    BucketOrderTotal(prs, keys);
    Ordered(keys, (p, q) => BucketLe(prs, p, q))
  }

  // ---- the loops ----

  ghost predicate ForestOf(prs: seq<PullRequest>, uf: UnionFind<int>)
    reads uf
  {
    uf.Valid() && Sound(prs, uf.rep)
  }

  lemma UnionKeepsSound(prs: seq<PullRequest>, rep: map<int, int>, a: int, b: int, top: int)
    requires Sound(prs, rep) && a in rep && b in rep && SimilarAt(prs, a, b) && top in {rep[a], rep[b]}
    ensures Sound(prs, Merged(rep, a, b, top))
  {
    var e, n := Edges(prs), Nodes(prs);
    var r := ConnectedBy(e, n);
    EdgesSymmetric(prs);
    ConnectedIsEquivalence(e, n);
    EdgeConnects(e, n, a, b);
    assert r(a, rep[a]) && r(b, rep[b]) && r(a, b);
    RelatedTops(r, n, rep[a], a, b, rep[b]);
    MergeKeepsSound(r, n, rep, a, b, top);
  }

  /** `uf.union(a, b)` of two similar positions. */
  method Unite(ghost prs: seq<PullRequest>, uf: UnionFind<int>, a: int, b: int)
    requires ForestOf(prs, uf) && a in Nodes(prs) && b in Nodes(prs) && SimilarAt(prs, a, b)
    modifies uf
    ensures ForestOf(prs, uf) && uf.order == old(uf.order)
    ensures Coarsens(old(uf.rep), uf.rep) && uf.rep[a] == uf.rep[b]
  {
    ghost var rep := uf.rep;
    uf.Union(a, b);
    UnionKeepsSound(prs, rep, a, b, uf.rep[a]);
    MergeCoarsens(rep, a, b, uf.rep[a]);
  }

  /** All positions of a bucket share their class with its anchor. */
  ghost predicate Gathered(rep: map<int, int>, bucket: seq<int>, anchor: int) {
    anchor in rep && forall i | i in bucket :: i in rep && rep[i] == rep[anchor]
  }

  lemma GatheredCoarsens(rep: map<int, int>, rep': map<int, int>, bucket: seq<int>, anchor: int)
    requires Gathered(rep, bucket, anchor) && Coarsens(rep, rep')
    ensures Gathered(rep', bucket, anchor)
  {}

  method UniteBucket(ghost prs: seq<PullRequest>, uf: UnionFind<int>, ghost paths: set<string>, members: seq<int>)
    requires ForestOf(prs, uf) && paths != {} && members == Bucket(prs, |prs|, paths) && members != []
    modifies uf
    ensures ForestOf(prs, uf) && uf.order == old(uf.order)
    ensures Coarsens(old(uf.rep), uf.rep) && Gathered(uf.rep, members, members[0])
  {
    BucketMembers(prs, |prs|, paths);
    EqualSetsAreSimilar(paths);
    var anchor := members[0];
    assert anchor in members;
    for t := 1 to |members|
      invariant ForestOf(prs, uf) && uf.order == old(uf.order)
      invariant Coarsens(old(uf.rep), uf.rep) && Gathered(uf.rep, members[..t], anchor)
    {
      ghost var before := uf.rep;
      assert members[t] in members;
      assert members[..t + 1] == members[..t] + [members[t]];
      Unite(prs, uf, anchor, members[t]);
      GatheredCoarsens(before, uf.rep, members[..t], anchor);
    }
    assert members[..|members|] == members;
  }

  ghost predicate BucketGathered(rep: map<int, int>, buckets: map<set<string>, seq<int>>, paths: set<string>) {
    paths in buckets && buckets[paths] != [] && Gathered(rep, buckets[paths], buckets[paths][0])
  }

  method UniteBuckets(ghost prs: seq<PullRequest>, uf: UnionFind<int>,
                      buckets: map<set<string>, seq<int>>, order: seq<set<string>>)
    requires ForestOf(prs, uf) && BucketsOf(prs, |prs|, buckets)
    requires forall paths | paths in order :: paths in buckets
    modifies uf
    ensures ForestOf(prs, uf) && uf.order == old(uf.order)
    ensures forall paths | paths in order :: BucketGathered(uf.rep, buckets, paths)
  {
    for k := 0 to |order|
      invariant ForestOf(prs, uf) && uf.order == old(uf.order)
      invariant forall paths | paths in order[..k] :: BucketGathered(uf.rep, buckets, paths)
    {
      ghost var before := uf.rep;
      assert order[..k + 1] == order[..k] + [order[k]];
      UniteBucket(prs, uf, order[k], buckets[order[k]]);
      forall paths | paths in order[..k]
        ensures BucketGathered(uf.rep, buckets, paths)
      {
        GatheredCoarsens(before, uf.rep, buckets[paths], buckets[paths][0]);
      }
    }
    assert order[..|order|] == order;
  }

  /** `Counter(path for paths in buckets for path in paths)`. */
  function PathFrequency(order: seq<set<string>>): map<string, nat> {
    map p | p in AllOf(order) :: CountBuckets(order, p)
  }

  function AllOf(order: seq<set<string>>): set<string> {
    set b, p | b in order && p in b :: p
  }

  function CountBuckets(order: seq<set<string>>, p: string): nat {
    if order == [] then 0 else (if p in order[0] then 1 else 0) + CountBuckets(order[1..], p)
  }

  /** The frequency of a path is the number of path sets that have it. */
  lemma FrequencyIs(order: seq<set<string>>, p: string)
    ensures Frequency(PathFrequency(order), p) == |set i | 0 <= i < |order| && p in order[i]|
  {
    CountIs(order, p, 0);
    assert order[0..] == order;
    if p !in AllOf(order) {
      assert (set i | 0 <= i < |order| && p in order[i]) == {} by {
        forall i | 0 <= i < |order| ensures p !in order[i] { assert order[i] in order; }
      }
    }
  }

  lemma {:induction false} CountIs(order: seq<set<string>>, p: string, k: nat)
    requires k <= |order|
    ensures CountBuckets(order[k..], p) == |set i | k <= i < |order| && p in order[i]|
    decreases |order| - k
  {
    if k < |order| {
      CountIs(order, p, k + 1);
      assert order[k..][1..] == order[k + 1..];
      var here, rest := (set i | k <= i < |order| && p in order[i]), (set i | k + 1 <= i < |order| && p in order[i]);
      assert here == if p in order[k] then {k} + rest else rest;
    }
  }

  // ---- the inverted index over prefixes ----

  function Postings(index: map<string, seq<int>>, path: string): seq<int> {
    if path in index then index[path] else []
  }

  ghost predicate InPrefix(frequency: map<string, nat>, order: seq<set<string>>, c: int, path: string) {
    0 <= c < |order| && order[c] != {} && path in Prefix(frequency, order[c])
  }

  /** The index lists a bucket under each path of its prefix, for the first `b` buckets. */
  ghost predicate IndexOf(frequency: map<string, nat>, order: seq<set<string>>, b: nat, index: map<string, seq<int>>)
  {
    forall path, c :: c in Postings(index, path) <==> c < b && InPrefix(frequency, order, c, path)
  }

  method AddPostings(frequency: map<string, nat>, order: seq<set<string>>, b: nat, index: map<string, seq<int>>)
    returns (index': map<string, seq<int>>)
    requires b < |order| && order[b] != {} && IndexOf(frequency, order, b, index)
    ensures IndexOf(frequency, order, b + 1, index')
  {
    var prefix := Prefix(frequency, order[b]);
    index' := index;
    for k := 0 to |prefix|
      invariant forall path, c :: c in Postings(index', path) <==>
                  (c < b && InPrefix(frequency, order, c, path)) || (c == b && path in prefix[..k])
    {
      assert prefix[..k + 1] == prefix[..k] + [prefix[k]];
      ghost var before := index';
      index' := index'[prefix[k] := Postings(index', prefix[k]) + [b]];
      forall path, c
        ensures c in Postings(index', path) <==>
                  (c < b && InPrefix(frequency, order, c, path)) || (c == b && path in prefix[..k + 1])
      {
        assert Postings(index', path) == Postings(before, path) + (if path == prefix[k] then [b] else []);
      }
    }
    assert prefix[..|prefix|] == prefix;
  }

  method GatherCandidates(prefix: seq<string>, index: map<string, seq<int>>) returns (candidates: set<int>)
    ensures forall c :: c in candidates <==> exists path :: path in prefix && c in Postings(index, path)
  {
    candidates := {};
    for k := 0 to |prefix|
      invariant forall c :: c in candidates <==> exists path :: path in prefix[..k] && c in Postings(index, path)
    {
      assert prefix[..k + 1] == prefix[..k] + [prefix[k]];
      var found := Postings(index, prefix[k]);
      candidates := candidates + set c | c in found;
    }
    assert prefix[..|prefix|] == prefix;
  }

  // ---- the join ----

  lemma AnchorIsMember(prs: seq<PullRequest>, buckets: map<set<string>, seq<int>>, paths: set<string>)
    requires BucketsOf(prs, |prs|, buckets) && paths in buckets
    ensures paths != {} && buckets[paths] != []
    ensures buckets[paths][0] in Nodes(prs) && prs[buckets[paths][0]].PathSet() == paths
  {
    BucketMembers(prs, |prs|, paths);
    assert buckets[paths][0] in buckets[paths];
  }

  ghost predicate Joined(rep: map<int, int>, buckets: map<set<string>, seq<int>>, p: set<string>, q: set<string>) {
    && p in buckets && q in buckets && buckets[p] != [] && buckets[q] != []
    && buckets[p][0] in rep && buckets[q][0] in rep
    && rep[buckets[p][0]] == rep[buckets[q][0]]
  }

  ghost predicate JoinedBelow(rep: map<int, int>, buckets: map<set<string>, seq<int>>, order: seq<set<string>>,
                              b: nat) {
    forall c, d | 0 <= c < d < b && d < |order| && Similar(order[c], order[d]) ::
      Joined(rep, buckets, order[c], order[d])
  }

  lemma JoinedStays(rep: map<int, int>, rep': map<int, int>, buckets: map<set<string>, seq<int>>,
                    p: set<string>, q: set<string>)
    requires Joined(rep, buckets, p, q) && Coarsens(rep, rep')
    ensures Joined(rep', buckets, p, q)
  {
    var x, y := buckets[p][0], buckets[q][0];
    assert x in rep && y in rep && rep[x] == rep[y];
    assert rep'[x] == rep'[y];
  }

  lemma JoinedCoarsens(rep: map<int, int>, rep': map<int, int>, buckets: map<set<string>, seq<int>>,
                       order: seq<set<string>>, b: nat)
    requires JoinedBelow(rep, buckets, order, b) && Coarsens(rep, rep')
    ensures JoinedBelow(rep', buckets, order, b)
  {
    forall c, d | 0 <= c < d < b && d < |order| && Similar(order[c], order[d])
      ensures Joined(rep', buckets, order[c], order[d])
    {
      JoinedStays(rep, rep', buckets, order[c], order[d]);
    }
  }

  /** One candidate pair: the size filter, then the exact Jaccard test. */
  method JoinPair(ghost prs: seq<PullRequest>, uf: UnionFind<int>, buckets: map<set<string>, seq<int>>,
                  paths: set<string>, other: set<string>)
    requires ForestOf(prs, uf) && BucketsOf(prs, |prs|, buckets) && paths in buckets && other in buckets
    modifies uf
    ensures ForestOf(prs, uf) && uf.order == old(uf.order) && Coarsens(old(uf.rep), uf.rep)
    ensures Similar(other, paths) ==> Joined(uf.rep, buckets, other, paths)
  {
    AnchorIsMember(prs, buckets, paths);
    AnchorIsMember(prs, buckets, other);
    SimilarIsConfirmed(paths, other);
    SimilarSymmetric(paths, other);
    if Similar(paths, other) { SizeFilterIsLossless(paths, other); }
    if !CanReachThreshold(|paths|, |other|) {
      return;
    }
    if FileJaccard(paths, other) >= CONFIRM {
      Unite(prs, uf, buckets[paths][0], buckets[other][0]);
    }
  }

  ghost predicate JoinedWith(rep: map<int, int>, buckets: map<set<string>, seq<int>>, order: seq<set<string>>,
                             b: nat, others: seq<int>)
    requires b < |order|
  {
    forall c | c in others && 0 <= c < |order| && Similar(order[c], order[b]) ::
      Joined(rep, buckets, order[c], order[b])
  }

  lemma JoinedWithStep(rep: map<int, int>, rep': map<int, int>, buckets: map<set<string>, seq<int>>,
                       order: seq<set<string>>, b: nat, others: seq<int>, k: nat)
    requires b < |order| && k < |others| && 0 <= others[k] < |order|
    requires JoinedWith(rep, buckets, order, b, others[..k]) && Coarsens(rep, rep')
    requires Similar(order[others[k]], order[b]) ==> Joined(rep', buckets, order[others[k]], order[b])
    ensures JoinedWith(rep', buckets, order, b, others[..k + 1])
  {
    assert others[..k + 1] == others[..k] + [others[k]];
    forall c | c in others[..k + 1] && 0 <= c < |order| && Similar(order[c], order[b])
      ensures Joined(rep', buckets, order[c], order[b])
    {
      if c != others[k] { JoinedStays(rep, rep', buckets, order[c], order[b]); }
    }
  }

  lemma CoarsensTransitive(r: map<int, int>, s: map<int, int>, t: map<int, int>)
    requires Coarsens(r, s) && Coarsens(s, t)
    ensures Coarsens(r, t)
  {}

  /** Checks bucket `b` against candidate buckets and unites the similar ones. */
  method JoinBucket(ghost prs: seq<PullRequest>, uf: UnionFind<int>, buckets: map<set<string>, seq<int>>,
                    order: seq<set<string>>, b: nat, others: seq<int>)
    requires ForestOf(prs, uf) && BucketsOf(prs, |prs|, buckets)
    requires b < |order| && forall p | p in order :: p in buckets
    requires forall k | 0 <= k < |others| :: 0 <= others[k] < |order|
    modifies uf
    ensures ForestOf(prs, uf) && uf.order == old(uf.order) && Coarsens(old(uf.rep), uf.rep)
    ensures JoinedWith(uf.rep, buckets, order, b, others)
  {
    for k := 0 to |others|
      invariant ForestOf(prs, uf) && uf.order == old(uf.order) && Coarsens(old(uf.rep), uf.rep)
      invariant JoinedWith(uf.rep, buckets, order, b, others[..k])
    {
      ghost var before := uf.rep;
      JoinPair(prs, uf, buckets, order[b], order[others[k]]);
      CoarsensTransitive(old(uf.rep), before, uf.rep);
      JoinedWithStep(before, uf.rep, buckets, order, b, others, k);
    }
    assert others[..|others|] == others;
  }

  /** Every earlier similar bucket is among the candidates. */
  lemma CandidatesSuffice(frequency: map<string, nat>, order: seq<set<string>>, b: nat,
                          index: map<string, seq<int>>, candidates: set<int>)
    requires b < |order| && order[b] != {} && IndexOf(frequency, order, b, index)
    requires forall x :: x in candidates <==>
               exists path :: path in Prefix(frequency, order[b]) && x in Postings(index, path)
    ensures forall c | c in candidates :: 0 <= c < b
    ensures forall c | 0 <= c < b && Similar(order[c], order[b]) :: c in candidates
  {
    forall c | c in candidates
      ensures 0 <= c < b
    {
      var path :| path in Prefix(frequency, order[b]) && c in Postings(index, path);
      assert InPrefix(frequency, order, c, path);
    }
    forall c | 0 <= c < b && Similar(order[c], order[b])
      ensures c in candidates
    {
      PrefixFilterIsLossless(frequency, order[c], order[b]);
      var p :| p in Prefix(frequency, order[c]) && p in Prefix(frequency, order[b]);
      assert InPrefix(frequency, order, c, p);
      assert c in Postings(index, p);
    }
  }

  lemma JoinedBelowStep(rep: map<int, int>, rep': map<int, int>, buckets: map<set<string>, seq<int>>,
                        order: seq<set<string>>, b: nat, others: seq<int>)
    requires b < |order| && JoinedBelow(rep, buckets, order, b) && Coarsens(rep, rep')
    requires JoinedWith(rep', buckets, order, b, others)
    requires forall c | 0 <= c < b && Similar(order[c], order[b]) :: c in others
    ensures JoinedBelow(rep', buckets, order, b + 1)
  {
    JoinedCoarsens(rep, rep', buckets, order, b);
    forall c, d | 0 <= c < d < b + 1 && d < |order| && Similar(order[c], order[d])
      ensures Joined(rep', buckets, order[c], order[d])
    {}
  }

  method FindCandidates(order: seq<set<string>>, frequency: map<string, nat>, b: nat, index: map<string, seq<int>>)
    returns (others: seq<int>)
    requires b < |order| && order[b] != {} && IndexOf(frequency, order, b, index)
    ensures forall k | 0 <= k < |others| :: 0 <= others[k] < b
    ensures forall c | 0 <= c < b && Similar(order[c], order[b]) :: c in others
  {
    hide Prefix, Similar, IndexOf, Postings;
    var candidates := GatherCandidates(Prefix(frequency, order[b]), index);
    CandidatesSuffice(frequency, order, b, index, candidates);
    others := SortedInts(candidates);
    assert forall k | 0 <= k < |others| :: others[k] in candidates;
  }

  /** One round of the join: look up candidates, check them, then index the bucket. */
  method JoinRound(ghost prs: seq<PullRequest>, uf: UnionFind<int>, buckets: map<set<string>, seq<int>>,
                   order: seq<set<string>>, frequency: map<string, nat>, b: nat, index: map<string, seq<int>>)
    returns (index': map<string, seq<int>>)
    requires ForestOf(prs, uf) && BucketsOf(prs, |prs|, buckets)
    requires b < |order| && forall p | p in order :: p in buckets
    requires IndexOf(frequency, order, b, index) && JoinedBelow(uf.rep, buckets, order, b)
    modifies uf
    ensures ForestOf(prs, uf) && uf.order == old(uf.order) && Coarsens(old(uf.rep), uf.rep)
    ensures IndexOf(frequency, order, b + 1, index') && JoinedBelow(uf.rep, buckets, order, b + 1)
  {
    AnchorIsMember(prs, buckets, order[b]);
    var others := FindCandidates(order, frequency, b, index);
    JoinBucket(prs, uf, buckets, order, b, others);
    JoinedBelowStep(old(uf.rep), uf.rep, buckets, order, b, others);
    index' := AddPostings(frequency, order, b, index);
  }

  method JoinBuckets(ghost prs: seq<PullRequest>, uf: UnionFind<int>, buckets: map<set<string>, seq<int>>,
                     order: seq<set<string>>)
    requires ForestOf(prs, uf) && BucketsOf(prs, |prs|, buckets)
    requires forall p | p in order :: p in buckets
    modifies uf
    ensures ForestOf(prs, uf) && uf.order == old(uf.order) && Coarsens(old(uf.rep), uf.rep)
    ensures JoinedBelow(uf.rep, buckets, order, |order|)
  {
    var frequency := PathFrequency(order);
    var index: map<string, seq<int>> := map[];
    for b := 0 to |order|
      invariant ForestOf(prs, uf) && uf.order == old(uf.order) && Coarsens(old(uf.rep), uf.rep)
      invariant IndexOf(frequency, order, b, index)
      invariant JoinedBelow(uf.rep, buckets, order, b)
    {
      ghost var before := uf.rep;
      index := JoinRound(prs, uf, buckets, order, frequency, b, index);
      CoarsensTransitive(old(uf.rep), before, uf.rep);
    }
  }

  lemma SimilarPairJoined(prs: seq<PullRequest>, rep: map<int, int>, buckets: map<set<string>, seq<int>>,
                          order: seq<set<string>>, p: set<string>, q: set<string>)
    requires p in order && q in order && Similar(p, q) && p != q && JoinedBelow(rep, buckets, order, |order|)
    ensures Joined(rep, buckets, p, q)
  {
    hide Similar;
    var c :| 0 <= c < |order| && order[c] == p;
    var d :| 0 <= d < |order| && order[d] == q;
    SimilarSymmetric(p, q);
  }

  /** After both phases no similar pair is separated. */
  lemma JoinedIsComplete(prs: seq<PullRequest>, rep: map<int, int>, buckets: map<set<string>, seq<int>>,
                         order: seq<set<string>>)
    requires BucketsOf(prs, |prs|, buckets) && rep.Keys == Nodes(prs)
    requires forall p :: p in order <==> p in buckets
    requires forall p | p in order :: BucketGathered(rep, buckets, p)
    requires JoinedBelow(rep, buckets, order, |order|)
    ensures Complete(prs, rep)
  {
    hide JoinedBelow;
    forall i, j | SimilarAt(prs, i, j)
      ensures rep[i] == rep[j]
    {
      var p, q := prs[i].PathSet(), prs[j].PathSet();
      BucketMembers(prs, |prs|, p);
      BucketMembers(prs, |prs|, q);
      assert i in Bucket(prs, |prs|, p) && j in Bucket(prs, |prs|, q);
      assert p in buckets && q in buckets;
      assert BucketGathered(rep, buckets, p) && BucketGathered(rep, buckets, q);
      if p != q {
        SimilarPairJoined(prs, rep, buckets, order, p, q);
      }
    }
  }

  // ---- the whole pass ----

  function AsSets(components: seq<seq<int>>): set<set<int>> {
    set c | c in components :: (set i | i in c)
  }

  lemma ClassesAreComponents(prs: seq<PullRequest>, order: seq<int>, rep: map<int, int>, components: seq<seq<int>>)
    requires Sound(prs, rep) && Complete(prs, rep) && (set x | x in order) == rep.Keys
    requires forall x | x in order :: x in rep
    requires var roots := Roots(order, |order|, rep);
             |components| == |roots|
             && forall k | 0 <= k < |roots| :: components[k] == Members(order, |order|, rep, roots[k])
    ensures AsSets(components) == ComponentSet(prs)
  {
    var roots := Roots(order, |order|, rep);
    RootsAreDistinct(order, |order|, rep);
    assert order[..|order|] == order;
    forall k | 0 <= k < |roots|
      ensures (set i | i in components[k]) == Class(rep, roots[k])
      ensures exists x :: x in rep && rep[x] == roots[k]
    {
      MembersAreTheClass(order, |order|, rep, roots[k]);
      assert roots[k] in roots;
      assert components[k][0] in components[k];
    }
    forall c | c in AsSets(components)
      ensures c in ComponentSet(prs)
    {
      var k :| 0 <= k < |components| && c == (set i | i in components[k]);
      var x :| x in rep && rep[x] == roots[k];
      ClassIsComponent(prs, rep, x);
    }
    forall c | c in ComponentSet(prs)
      ensures c in AsSets(components)
    {
      var x :| x in Nodes(prs) && c == ComponentAt(prs, x);
      ClassIsComponent(prs, rep, x);
      assert x in order;
      var k :| 0 <= k < |roots| && roots[k] == rep[x];
      assert components[k] in components;
      assert c == (set i | i in components[k]);
    }
  }

  ghost function Components(prs: seq<PullRequest>): (cs: seq<set<int>>)
    ensures forall c | c in cs :: c <= Nodes(prs)
  {
    ComponentsDisjoint(prs);
    SortComponents(prs, ComponentSet(prs))
  }

  method Singletons(prs: seq<PullRequest>) returns (uf: UnionFind<int>)
    ensures fresh(uf) && ForestOf(prs, uf)
  {
    hide Connected, Walk, WalkBetween;
    uf := new UnionFind();
    for i := 0 to |prs|
      invariant fresh(uf) && uf.Valid()
      invariant uf.rep.Keys == set j | 0 <= j < i && IsNode(prs, j)
      invariant forall j | j in uf.rep :: uf.rep[j] == j
    {
      uf.Add(i);
    }
    var e, n := Edges(prs), Nodes(prs);
    forall j | j in uf.rep
      ensures ConnectedBy(e, n)(j, uf.rep[j])
    {
      ConnectedReflexive(e, n, j);
    }
  }

  /** `cluster_prs`: exactly one group per connected component, in the documented order. */
  method ClusterPrs(prs: seq<PullRequest>) returns (groups: seq<Group>)
    ensures groups == GroupsOf(prs, Components(prs))
  {
    var uf := Singletons(prs);
    var buckets := FillBuckets(prs);
    var order := SortBuckets(prs, buckets.Keys);
    UniteBuckets(prs, uf, buckets, order);
    ghost var gathered := uf.rep;
    JoinBuckets(prs, uf, buckets, order);
    forall p | p in order
      ensures BucketGathered(uf.rep, buckets, p)
    {
      GatheredCoarsens(gathered, uf.rep, buckets[p], buckets[p][0]);
    }
    JoinedIsComplete(prs, uf.rep, buckets, order);
    var components := uf.Components();
    ClassesAreComponents(prs, uf.order, uf.rep, components);
    ComponentsDisjoint(prs);
    groups := GroupsOf(prs, SortComponents(prs, AsSets(components)));
  }
}
