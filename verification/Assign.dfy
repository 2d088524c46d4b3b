/**
 Incremental assignment of triage/assign.py. Repository names are already normalised
 (trimmed and lower case), and the PR numbers of one input are distinct, as the listing
 validation of triage/gh.py guarantees.
 */
module Assign {
  import opened Models
  import opened Jaccard
  import opened Graphs
  import opened ClusterByValue
  import opened GroupSearch

  // ---- the retention rule ----

  function OwnGroups(existing: seq<Group>, repo: string): seq<Group> {
    if existing == [] then [] else
      (if existing[0].repo == repo then [existing[0]] else []) + OwnGroups(existing[1..], repo)
  }

  /** `next(item for item in member_revisions if item.pr_number == number)`. */
  function PriorRevision(revisions: seq<RevisionEvidence>, number: int): Option<RevisionEvidence> {
    if revisions == [] then None
    else if revisions[0].prNumber == number then Some(revisions[0])
    else PriorRevision(revisions[1..], number)
  }

  /** Same exact evidence, or both incomplete with an unchanged path list. */
  predicate Keeps(g: Group, p: PullRequest) {
    var prior := PriorRevision(g.memberRevisions, p.number);
    prior.Some? &&
    (prior.value == p.evidence ||
     (!prior.value.evidenceComplete && !p.evidence.evidenceComplete
      && p.number in g.pathSignatures && g.pathSignatures[p.number] == p.paths))
  }

  /** The group that `old_of` holds for a number among the first `n` groups: the last one listing it. */
  function OldGroup(own: seq<Group>, n: nat, number: int): Option<Group>
    requires n <= |own|
  {
    if n == 0 then None
    else if number in own[n - 1].prNumbers then Some(own[n - 1])
    else OldGroup(own, n - 1, number)
  }

  /** The group a pull request stays in, if any. */
  function Retention(own: seq<Group>, p: PullRequest): Option<string> {
    match OldGroup(own, |own|, p.number)
    case Some(g) => if Keeps(g, p) then Some(g.groupId) else None
    case None => None
  }

  /** The last group that lists the number. */
  ghost predicate LastListing(own: seq<Group>, i: nat, number: int) {
    i < |own| && number in own[i].prNumbers && forall j | i < j < |own| :: number !in own[j].prNumbers
  }

  /** The first recorded revision of the number. */
  ghost predicate FirstRecorded(revisions: seq<RevisionEvidence>, k: nat, number: int) {
    k < |revisions| && revisions[k].prNumber == number && forall j | 0 <= j < k :: revisions[j].prNumber != number
  }

  lemma {:induction false} PriorIsFirst(revisions: seq<RevisionEvidence>, number: int)
    ensures forall k: nat | FirstRecorded(revisions, k, number) ::
              PriorRevision(revisions, number) == Some(revisions[k])
    ensures PriorRevision(revisions, number).Some? ==> exists k: nat :: FirstRecorded(revisions, k, number)
  {
    if revisions != [] {
      var rest := revisions[1..];
      PriorIsFirst(rest, number);
      if revisions[0].prNumber == number {
        assert FirstRecorded(revisions, 0, number);
      } else {
        forall k: nat | FirstRecorded(revisions, k, number)
          ensures FirstRecorded(rest, k - 1, number) && rest[k - 1] == revisions[k]
        {}
        if k: nat :| FirstRecorded(rest, k, number) { assert FirstRecorded(revisions, k + 1, number); }
      }
    }
  }

  lemma {:induction false} OldIsLastListing(own: seq<Group>, n: nat, number: int)
    requires n <= |own|
    ensures forall i: nat | LastListing(own[..n], i, number) :: OldGroup(own, n, number) == Some(own[i])
    ensures OldGroup(own, n, number).Some? ==> exists i: nat :: LastListing(own[..n], i, number)
  {
    if n > 0 {
      var all, before := own[..n], own[..n - 1];
      OldIsLastListing(own, n - 1, number);
      if number in own[n - 1].prNumbers {
        assert LastListing(all, n - 1, number);
        forall i: nat | LastListing(all, i, number) ensures i == n - 1 { assert all[n - 1] == own[n - 1]; }
      } else {
        forall i: nat | LastListing(all, i, number)
          ensures LastListing(before, i, number)
        {
          assert i != n - 1;
        }
        if i: nat :| LastListing(before, i, number) { assert LastListing(all, i, number); }
      }
    }
  }

  /**
   A pull request stays in a group exactly when that is the last own one listing its number and the
   first revision recorded there is its present one, or both are incomplete and the paths unchanged.
   */
  lemma RetainedIff(own: seq<Group>, p: PullRequest, gid: string)
    ensures Retention(own, p) == Some(gid) <==>
            exists i: nat, k: nat ::
              && LastListing(own, i, p.number) && own[i].groupId == gid
              && FirstRecorded(own[i].memberRevisions, k, p.number)
              && (var prior := own[i].memberRevisions[k];
                  prior == p.evidence
                  || (!prior.evidenceComplete && !p.evidence.evidenceComplete
                      && p.number in own[i].pathSignatures && own[i].pathSignatures[p.number] == p.paths))
  {
    hide PriorRevision, OldGroup, LastListing, FirstRecorded;
    OldIsLastListing(own, |own|, p.number);
    assert own[..|own|] == own;
    forall g | g in own { PriorIsFirst(g.memberRevisions, p.number); }
    var old' := OldGroup(own, |own|, p.number);
    if old'.Some? {
      var i: nat :| LastListing(own, i, p.number);
      LastListed(own, i, p.number);
      if PriorRevision(own[i].memberRevisions, p.number).Some? {
        var k: nat :| FirstRecorded(own[i].memberRevisions, k, p.number);
      }
    }
    forall i: nat | LastListing(own, i, p.number) ensures i < |own| && own[i] in own { LastListed(own, i, p.number); }
  }

  lemma LastListed(own: seq<Group>, i: nat, number: int)
    requires LastListing(own, i, number)
    ensures i < |own| && own[i] in own
  {}

  function KeptSeq(prs: seq<PullRequest>, n: nat, own: seq<Group>, gid: string): seq<PullRequest>
    requires n <= |prs|
  {
    if n == 0 then [] else
      KeptSeq(prs, n - 1, own, gid) + (if Retention(own, prs[n - 1]) == Some(gid) then [prs[n - 1]] else [])
  }

  function FreshSeq(prs: seq<PullRequest>, n: nat, own: seq<Group>): seq<PullRequest>
    requires n <= |prs|
  {
    if n == 0 then [] else
      FreshSeq(prs, n - 1, own) + (if Retention(own, prs[n - 1]).None? then [prs[n - 1]] else [])
  }

  method IndexOldGroups(own: seq<Group>) returns (oldOf: map<int, Group>)
    ensures forall n :: (if n in oldOf then Some(oldOf[n]) else None) == OldGroup(own, |own|, n)
  {
    oldOf := map[];
    for i := 0 to |own|
      invariant forall n :: (if n in oldOf then Some(oldOf[n]) else None) == OldGroup(own, i, n)
    {
      var numbers := own[i].prNumbers;
      for j := 0 to |numbers|
        invariant forall n :: (if n in oldOf then Some(oldOf[n]) else None) ==
                              (if n in numbers[..j] then Some(own[i]) else OldGroup(own, i, n))
      {
        assert numbers[..j + 1] == numbers[..j] + [numbers[j]];
        oldOf := oldOf[numbers[j] := own[i]];
      }
      assert numbers[..|numbers|] == numbers;
    }
  }

  lemma RetentionFromIndex(own: seq<Group>, oldOf: map<int, Group>, p: PullRequest)
    requires forall n :: (if n in oldOf then Some(oldOf[n]) else None) == OldGroup(own, |own|, n)
    ensures Retention(own, p) ==
              if p.number in oldOf && Keeps(oldOf[p.number], p) then Some(oldOf[p.number].groupId) else None
  {
    assert OldGroup(own, |own|, p.number) == if p.number in oldOf then Some(oldOf[p.number]) else None;
  }

  /** `lists` holds exactly the non-empty lists, under their ids. */
  ghost predicate Holds<T(!new)>(lists: map<string, seq<T>>, list: string -> seq<T>) {
    && (forall gid :: gid in lists <==> list(gid) != [])
    && (forall gid | gid in lists :: lists[gid] == list(gid))
  }

  function Extended<T>(lists: map<string, seq<T>>, gid: string, x: T): map<string, seq<T>> {
    lists[gid := (if gid in lists then lists[gid] else []) + [x]]
  }

  lemma ExtendedHolds<T(!new)>(lists: map<string, seq<T>>, list: string -> seq<T>, list': string -> seq<T>,
                        to: Option<string>, x: T)
    requires Holds(lists, list)
    requires forall gid :: list'(gid) == if to == Some(gid) then list(gid) + [x] else list(gid)
    ensures Holds(if to.Some? then Extended(lists, to.value, x) else lists, list')
  {}

  ghost function Kept(prs: seq<PullRequest>, n: nat, own: seq<Group>): string -> seq<PullRequest>
    requires n <= |prs|
  {
    gid => KeptSeq(prs, n, own, gid)
  }

  /** The first n pull requests, split into those that stay and those that do not. */
  ghost predicate SplitAt(prs: seq<PullRequest>, n: nat, own: seq<Group>,
                          attached: map<string, seq<PullRequest>>, newPrs: seq<PullRequest>)
    requires n <= |prs|
  {
    Holds(attached, Kept(prs, n, own)) && newPrs == FreshSeq(prs, n, own)
  }

  lemma SplitStep(prs: seq<PullRequest>, n: nat, own: seq<Group>, attached: map<string, seq<PullRequest>>,
                  newPrs: seq<PullRequest>)
    requires n < |prs| && SplitAt(prs, n, own, attached, newPrs)
    ensures match Retention(own, prs[n])
            case Some(gid) => SplitAt(prs, n + 1, own, Extended(attached, gid, prs[n]), newPrs)
            case None => SplitAt(prs, n + 1, own, attached, newPrs + [prs[n]])
  {
    hide Retention, Extended, Holds;
    ExtendedHolds(attached, Kept(prs, n, own), Kept(prs, n + 1, own), Retention(own, prs[n]), prs[n]);
  }

  lemma SplitStart(prs: seq<PullRequest>, own: seq<Group>)
    ensures SplitAt(prs, 0, own, map[], [])
  {}

  method SplitRetained(prs: seq<PullRequest>, own: seq<Group>)
    returns (attached: map<string, seq<PullRequest>>, newPrs: seq<PullRequest>)
    ensures forall gid :: gid in attached <==> KeptSeq(prs, |prs|, own, gid) != []
    ensures forall gid | gid in attached :: attached[gid] == KeptSeq(prs, |prs|, own, gid)
    ensures newPrs == FreshSeq(prs, |prs|, own)
  {
    hide Retention, OldGroup, Keeps, KeptSeq;
    SplitStart(prs, own);
    var oldOf := IndexOldGroups(own);
    attached, newPrs := map[], [];
    for i := 0 to |prs|
      invariant SplitAt(prs, i, own, attached, newPrs)
    {
      hide SplitAt;
      var p := prs[i];
      RetentionFromIndex(own, oldOf, p);
      SplitStep(prs, i, own, attached, newPrs);
      if p.number in oldOf {
        var group := oldOf[p.number];
        if Keeps(group, p) {
          var gid := group.groupId;
          attached := Extended(attached, gid, p);
        } else {
          newPrs := newPrs + [p];
        }
      } else {
        newPrs := newPrs + [p];
      }
    }
  }

  // ---- the same by value ----

  ghost function KeptSet(pulls: set<PullRequest>, own: seq<Group>, gid: string): set<PullRequest> {
    set p | p in pulls && Retention(own, p) == Some(gid)
  }

  ghost function FreshSet(pulls: set<PullRequest>, own: seq<Group>): set<PullRequest> {
    set p | p in pulls && Retention(own, p).None?
  }

  ghost function KeptIds(pulls: set<PullRequest>, own: seq<Group>): set<string> {
    set p | p in pulls && Retention(own, p).Some? :: Retention(own, p).value
  }

  function PathSetsOf(members: set<PullRequest>): PathSets { set p | p in members :: p.PathSet() }

  /** The path sets known for each retained group before any new cluster is placed. */
  ghost function Known(pulls: set<PullRequest>, own: seq<Group>): map<string, PathSets> {
    map gid | gid in KeptIds(pulls, own) :: PathSetsOf(KeptSet(pulls, own, gid))
  }

  /** Where a new cluster goes: a group, or nowhere when its change shape is unknown or nothing is similar. */
  ghost function Destination(known: map<string, PathSets>, cluster: set<PullRequest>): Option<string> {
    if exists p :: p in cluster && p.PathSet() == {} then None else BestGroup(known, PathSetsOf(cluster))
  }

  lemma {:induction false} KeptSeqElements(prs: seq<PullRequest>, n: nat, own: seq<Group>, gid: string)
    requires n <= |prs|
    ensures forall p :: p in KeptSeq(prs, n, own, gid) <==> p in prs[..n] && Retention(own, p) == Some(gid)
  {
    if n > 0 {
      KeptSeqElements(prs, n - 1, own, gid);
      assert prs[..n] == prs[..n - 1] + [prs[n - 1]];
    }
  }

  lemma {:induction false} FreshSeqElements(prs: seq<PullRequest>, n: nat, own: seq<Group>)
    requires n <= |prs|
    ensures forall p :: p in FreshSeq(prs, n, own) <==> p in prs[..n] && Retention(own, p).None?
  {
    if n > 0 {
      FreshSeqElements(prs, n - 1, own);
      assert prs[..n] == prs[..n - 1] + [prs[n - 1]];
    }
  }

  lemma {:induction false} FreshSeqDistinct(prs: seq<PullRequest>, n: nat, own: seq<Group>)
    requires n <= |prs| && DistinctNumbers(prs)
    ensures DistinctNumbers(FreshSeq(prs, n, own))
  {
    if n > 0 {
      FreshSeqDistinct(prs, n - 1, own);
      FreshSeqElements(prs, n - 1, own);
      var before := FreshSeq(prs, n - 1, own);
      forall i | 0 <= i < |before|
        ensures before[i].number != prs[n - 1].number
      {
        assert before[i] in prs[..n - 1];
      }
    }
  }

  // ---- placing the new clusters ----

  /** The destination and the member list of every cluster, in cluster order. */
  ghost function Destinations(known: map<string, PathSets>, cs: seq<set<PullRequest>>): (to: seq<Option<string>>)
    ensures |to| == |cs|
  {
    seq(|cs|, i requires 0 <= i < |cs| => Destination(known, cs[i]))
  }

  ghost function Lists(cs: seq<set<PullRequest>>): (lists: seq<seq<PullRequest>>)
    ensures |lists| == |cs|
  {
    seq(|cs|, i requires 0 <= i < |cs| => Listed(cs[i]))
  }

  /** The lists that go to `gid` among the first `k` destinations, concatenated. */
  ghost function JoinedSeq<T>(to: seq<Option<string>>, lists: seq<seq<T>>, k: nat, gid: string): seq<T>
    requires k <= |to| == |lists|
  {
    if k == 0 then [] else
      JoinedSeq(to, lists, k - 1, gid) + (if to[k - 1] == Some(gid) then lists[k - 1] else [])
  }

  /** The lists without a destination among the first `k`. */
  ghost function Leftovers<T>(to: seq<Option<string>>, lists: seq<T>, k: nat): seq<T>
    requires k <= |to| == |lists|
  {
    if k == 0 then [] else
      Leftovers(to, lists, k - 1) + (if to[k - 1].None? then [lists[k - 1]] else [])
  }

  /** `x` belongs to one of the first `k` lists that go to `gid`. */
  ghost predicate Joins<T>(to: seq<Option<string>>, lists: seq<seq<T>>, k: nat, gid: string, x: T)
    requires k <= |to| == |lists|
  {
    exists l :: 0 <= l < k && to[l] == Some(gid) && x in lists[l]
  }

  lemma {:induction false} JoinedSeqElements<T>(to: seq<Option<string>>, lists: seq<seq<T>>, k: nat, gid: string, x: T)
    requires k <= |to| == |lists|
    ensures x in JoinedSeq(to, lists, k, gid) <==> Joins(to, lists, k, gid, x)
  {
    if k > 0 {
      JoinedSeqElements(to, lists, k - 1, gid, x);
      if Joins(to, lists, k, gid, x) {
        var l :| 0 <= l < k && to[l] == Some(gid) && x in lists[l];
        assert l == k - 1 || Joins(to, lists, k - 1, gid, x);
      }
    }
  }

  /** Path sets of different new clusters are always below the threshold. */
  lemma ClustersDissimilar(pulls: set<PullRequest>, c: set<PullRequest>, d: set<PullRequest>, p: PullRequest,
                           q: PullRequest)
    requires c in PullComponents(pulls) && d in PullComponents(pulls) && c != d && p in c && q in d
    ensures !Similar(p.PathSet(), q.PathSet())
  {
    ComponentOfMember(pulls, c, p);
    ComponentOfMember(pulls, d, q);
    if Similar(p.PathSet(), q.PathSet()) {
      SimilarPullsSymmetric();
      EdgeConnects(SimilarPulls(), pulls, p, q);
      ComponentsAgree(SimilarPulls(), pulls, p, q);
    }
  }

  /** A pull request without known paths is a cluster of its own. */
  lemma PathlessIsAlone(pulls: set<PullRequest>, c: set<PullRequest>, p: PullRequest)
    requires c in PullComponents(pulls) && p in c && p.PathSet() == {}
    ensures c == {p}
  {
    ComponentOfMember(pulls, c, p);
    forall q | q in c
      ensures q == p
    {
      NeighbourOnWalk(SimilarPulls(), pulls, p, q);
    }
  }

  lemma NeighbourOnWalk<T(!new)>(edge: (T, T) -> bool, nodes: set<T>, x: T, y: T)
    requires Connected(edge, nodes, x, y)
    ensures x == y || exists z :: edge(x, z)
  {
    var w :| WalkBetween(edge, nodes, w, x, y);
    if |w| > 1 {
      assert edge(w[0], w[1]);
    }
  }

  // ---- the known path sets and their index ----

  function SeqPathSets(members: seq<PullRequest>): PathSets { set p | p in members :: p.PathSet() }

  /** `known_sets.append` of every set not yet known, each indexed under its paths. */
  method LearnSets(sets: seq<set<string>>, gid: string, lists: map<string, seq<set<string>>>,
                   index: map<string, set<string>>)
    returns (lists': map<string, seq<set<string>>>, index': map<string, set<string>>)
    requires gid in lists && GroupIndex(index, lists)
    ensures lists'.Keys == lists.Keys && GroupIndex(index', lists')
    ensures AsSet(lists'[gid]) == AsSet(lists[gid]) + AsSet(sets)
    ensures forall g | g in lists && g != gid :: lists'[g] == lists[g]
  {
    lists', index' := lists, index;
    for i := 0 to |sets|
      invariant lists'.Keys == lists.Keys && GroupIndex(index', lists')
      invariant AsSet(lists'[gid]) == AsSet(lists[gid]) + AsSet(sets[..i])
      invariant forall g | g in lists && g != gid :: lists'[g] == lists[g]
    {
      assert sets[..i + 1] == sets[..i] + [sets[i]];
      if sets[i] !in lists'[gid] {
        index' := LearnSet(sets[i], gid, lists', index');
        assert AsSet(lists'[gid] + [sets[i]]) == AsSet(lists'[gid]) + {sets[i]};
        lists' := lists'[gid := lists'[gid] + [sets[i]]];
      }
      assert AsSet(sets[..i + 1]) == AsSet(sets[..i]) + {sets[i]};
    }
    assert sets[..|sets|] == sets;
  }

  method LearnSet(paths: set<string>, gid: string, ghost lists: map<string, seq<set<string>>>,
                  index: map<string, set<string>>)
    returns (index': map<string, set<string>>)
    requires gid in lists && GroupIndex(index, lists)
    ensures GroupIndex(index', lists[gid := lists[gid] + [paths]])
  {
    index' := index;
    var todo := paths;
    while todo != {}
      invariant todo <= paths
      invariant forall path :: Lookup(index', path) ==
                  Lookup(index, path) + (if path in paths - todo then {gid} else {})
      decreases todo
    {
      var path :| path in todo;
      index' := index'[path := Lookup(index', path) + {gid}];
      todo := todo - {path};
    }
    ghost var lists' := lists[gid := lists[gid] + [paths]];
    forall path, g
      ensures g in Lookup(index', path) <==> g in lists' && exists s :: s in lists'[g] && path in s
    {
      if g == gid {
        assert forall s :: s in lists'[gid] <==> s in lists[gid] || s == paths;
      }
    }
  }

  // ---- the loop over the new clusters ----

  /** The retained members by group, as `SplitRetained` leaves them. */
  ghost predicate KeptMap(prs: seq<PullRequest>, own: seq<Group>, kept: map<string, seq<PullRequest>>) {
    && kept.Keys == KeptIds(PullSet(prs), own)
    && forall gid | gid in kept :: kept[gid] == KeptSeq(prs, |prs|, own, gid)
  }

  ghost predicate AttachedAfter<T>(kept: map<string, seq<T>>, to: seq<Option<string>>, lists: seq<seq<T>>, k: nat,
                                   attached: map<string, seq<T>>)
    requires k <= |to| == |lists|
  {
    && attached.Keys == kept.Keys
    && forall gid | gid in attached :: attached[gid] == kept[gid] + JoinedSeq(to, lists, k, gid)
  }

  ghost predicate Indexed(attached: map<string, seq<PullRequest>>, lists: map<string, seq<set<string>>>,
                          index: map<string, set<string>>) {
    && lists.Keys == attached.Keys && GroupIndex(index, lists)
    && forall gid | gid in attached :: AsSet(lists[gid]) == SeqPathSets(attached[gid])
  }

  /** The clusters come from one clustering of the pull requests `pulls`. */
  ghost predicate ClusterList(pulls: set<PullRequest>, cs: seq<set<PullRequest>>) {
    && DistinctSet(pulls)
    && (forall c | c in cs :: c in PullComponents(pulls) && DistinctSet(c))
    && forall i, j | 0 <= i < j < |cs| :: cs[i] != cs[j]
  }

  lemma KnownOfKept(prs: seq<PullRequest>, own: seq<Group>, kept: map<string, seq<PullRequest>>, gid: string)
    requires KeptMap(prs, own, kept) && gid in kept
    ensures SeqPathSets(kept[gid]) == Known(PullSet(prs), own)[gid]
  {
    assert prs[..|prs|] == prs;
    KeptSeqElements(prs, |prs|, own, gid);
    assert forall p :: p in kept[gid] <==> p in KeptSet(PullSet(prs), own, gid);
  }

  /** What the earlier clusters added to a group is below the threshold for the next one. */
  lemma KnownGrowsDissimilar(prs: seq<PullRequest>, own: seq<Group>, pulls: set<PullRequest>,
                             kept: map<string, seq<PullRequest>>, cs: seq<set<PullRequest>>,
                             to: seq<Option<string>>, k: nat, attached: map<string, seq<PullRequest>>,
                             lists: map<string, seq<set<string>>>, index: map<string, set<string>>)
    requires k < |cs| == |to| && ClusterList(pulls, cs) && KeptMap(prs, own, kept)
    requires AttachedAfter(kept, to, Lists(cs), k, attached) && Indexed(attached, lists, index)
    ensures Extends(Known(PullSet(prs), own), AsKnown(lists), PathSetsOf(cs[k]))
  {
    var known, known', sets := Known(PullSet(prs), own), AsKnown(lists), PathSetsOf(cs[k]);
    forall gid | gid in known
      ensures known[gid] <= known'[gid]
    {
      KnownOfKept(prs, own, kept, gid);
    }
    forall g, f, o | Pair(known', sets, g, f, o) && !Pair(known, sets, g, f, o)
      ensures !Similar(f, o)
    {
      KnownOfKept(prs, own, kept, g);
      var p :| p in attached[g] && p.PathSet() == o;
      var q :| q in cs[k] && q.PathSet() == f;
      JoinedSeqElements(to, Lists(cs), k, g, p);
      assert p !in kept[g];
      var l :| 0 <= l < k && to[l] == Some(g) && p in Lists(cs)[l];
      assert cs[l] in cs && cs[k] in cs && cs[l] != cs[k];
      ClustersDissimilar(pulls, cs[k], cs[l], q, p);
    }
  }

  method MemberPathSets(members: seq<PullRequest>) returns (sets: seq<set<string>>)
    ensures AsSet(sets) == SeqPathSets(members)
    ensures {} in sets ==> exists p :: p in members && p.PathSet() == {}
  {
    sets := seq(|members|, i requires 0 <= i < |members| => members[i].PathSet());
    forall s | s in SeqPathSets(members)
      ensures s in sets
    {
      var p :| p in members && p.PathSet() == s;
      var i :| 0 <= i < |members| && members[i] == p;
      assert sets[i] == s;
    }
  }

  /** The group the k-th cluster joins; path sets learnt from earlier clusters make no difference. */
  lemma ChoiceIsDestination(prs: seq<PullRequest>, own: seq<Group>, pulls: set<PullRequest>,
                            kept: map<string, seq<PullRequest>>, cs: seq<set<PullRequest>>,
                            to: seq<Option<string>>, k: nat,
                            attached: map<string, seq<PullRequest>>, lists: map<string, seq<set<string>>>,
                            index: map<string, set<string>>)
    requires k < |cs| == |to| && ClusterList(pulls, cs) && KeptMap(prs, own, kept)
    requires AttachedAfter(kept, to, Lists(cs), k, attached) && Indexed(attached, lists, index)
    requires forall p | p in cs[k] :: p.PathSet() != {}
    ensures BestGroup(AsKnown(lists), PathSetsOf(cs[k])) == Destination(Known(PullSet(prs), own), cs[k])
  {
    KnownGrowsDissimilar(prs, own, pulls, kept, cs, to, k, attached, lists, index);
    BestGroupStable(Known(PullSet(prs), own), AsKnown(lists), PathSetsOf(cs[k]));
  }

  lemma DestinationIsKnown(known: map<string, PathSets>, cluster: set<PullRequest>)
    ensures var d := Destination(known, cluster); d.Some? ==> d.value in known
  {
    var d := Destination(known, cluster);
    if d.Some? {
      assert IsBest(known, PathSetsOf(cluster), d.value);
    }
  }

  lemma Regroup<T>(a: seq<T>, b: seq<T>, c: seq<T>)
    ensures a + (b + c) == (a + b) + c
  {}

  lemma JoinedSeqStep<T>(kept: seq<T>, to: seq<Option<string>>, lists: seq<seq<T>>, k: nat, gid: string)
    requires k < |to| == |lists|
    ensures kept + JoinedSeq(to, lists, k + 1, gid) ==
              kept + JoinedSeq(to, lists, k, gid) + (if to[k] == Some(gid) then lists[k] else [])
  {
    Regroup(kept, JoinedSeq(to, lists, k, gid), if to[k] == Some(gid) then lists[k] else []);
  }

  function Joined<T>(attached: map<string, seq<T>>, to: Option<string>, list: seq<T>): map<string, seq<T>>
    requires to.Some? ==> to.value in attached
  {
    if to.None? then attached else attached[to.value := attached[to.value] + list]
  }

  lemma AttachedStep<T>(kept: map<string, seq<T>>, to: seq<Option<string>>, lists: seq<seq<T>>, k: nat,
                        attached: map<string, seq<T>>)
    requires k < |to| == |lists| && AttachedAfter(kept, to, lists, k, attached)
    requires to[k].Some? ==> to[k].value in attached
    ensures AttachedAfter(kept, to, lists, k + 1, Joined(attached, to[k], lists[k]))
  {
    forall gid | gid in attached
      ensures Joined(attached, to[k], lists[k])[gid] == kept[gid] + JoinedSeq(to, lists, k + 1, gid)
    {
      JoinedSeqStep(kept[gid], to, lists, k, gid);
    }
  }

  lemma LeftoversStep<T>(to: seq<Option<string>>, lists: seq<T>, k: nat)
    requires k < |to| == |lists|
    ensures Leftovers(to, lists, k + 1) ==
            if to[k].None? then Leftovers(to, lists, k) + [lists[k]] else Leftovers(to, lists, k)
  {}

  lemma IndexedStep(attached: map<string, seq<PullRequest>>, lists: map<string, seq<set<string>>>,
                    lists': map<string, seq<set<string>>>, index': map<string, set<string>>,
                    gid: string, members: seq<PullRequest>)
    requires gid in attached && lists.Keys == attached.Keys == lists'.Keys && GroupIndex(index', lists')
    requires forall g | g in attached :: AsSet(lists[g]) == SeqPathSets(attached[g])
    requires AsSet(lists'[gid]) == AsSet(lists[gid]) + SeqPathSets(members)
    requires forall g | g in lists && g != gid :: lists'[g] == lists[g]
    ensures Indexed(attached[gid := attached[gid] + members], lists', index')
  {
    assert SeqPathSets(attached[gid] + members) == SeqPathSets(attached[gid]) + SeqPathSets(members);
  }

  /** A cluster with known paths joins the group the search finds, or starts one. */
  method PlaceByPaths(ghost prs: seq<PullRequest>, ghost own: seq<Group>, ghost pulls: set<PullRequest>,
                      ghost kept: map<string, seq<PullRequest>>, ghost cs: seq<set<PullRequest>>,
                      ghost to: seq<Option<string>>, ghost k: nat, members: seq<PullRequest>,
                      attached: map<string, seq<PullRequest>>, lists: map<string, seq<set<string>>>,
                      index: map<string, set<string>>, leftovers: seq<seq<PullRequest>>)
    returns (attached': map<string, seq<PullRequest>>, lists': map<string, seq<set<string>>>,
             index': map<string, set<string>>, leftovers': seq<seq<PullRequest>>)
    requires k < |cs| && ClusterList(pulls, cs) && cs[k] in cs && members == Lists(cs)[k]
    requires KeptMap(prs, own, kept) && "" !in kept && to == Destinations(Known(PullSet(prs), own), cs)
    requires AttachedAfter(kept, to, Lists(cs), k, attached) && Indexed(attached, lists, index)
    requires leftovers == Leftovers(to, Lists(cs), k)
    requires forall p | p in members :: p.PathSet() != {}
    ensures AttachedAfter(kept, to, Lists(cs), k + 1, attached') && Indexed(attached', lists', index')
    ensures leftovers' == Leftovers(to, Lists(cs), k + 1)
  {
    attached', lists', index', leftovers' := attached, lists, index, leftovers;
    LeftoversStep(to, Lists(cs), k);
    var sets := MemberPathSets(members);
    assert AsSet(sets) == PathSetsOf(cs[k]);
    ChoiceIsDestination(prs, own, pulls, kept, cs, to, k, attached, lists, index);
    DestinationIsKnown(Known(PullSet(prs), own), cs[k]);
    var best := FindBest(sets, lists, index);
    assert to[k] == best;
    AttachedStep(kept, to, Lists(cs), k, attached);
    if best.Some? && best.value != "" {
      var gid := best.value;
      attached' := attached[gid := attached[gid] + members];
      lists', index' := LearnSets(sets, gid, lists, index);
      IndexedStep(attached, lists, lists', index', gid, members);
    } else {
      leftovers' := leftovers + [members];
    }
  }

  /** Members without known paths stay independently pending; other clusters are placed by their paths. */
  method PlaceCluster(ghost prs: seq<PullRequest>, ghost own: seq<Group>, ghost pulls: set<PullRequest>,
                      ghost kept: map<string, seq<PullRequest>>, ghost cs: seq<set<PullRequest>>,
                      ghost to: seq<Option<string>>, ghost k: nat, members: seq<PullRequest>,
                      attached: map<string, seq<PullRequest>>, lists: map<string, seq<set<string>>>,
                      index: map<string, set<string>>, leftovers: seq<seq<PullRequest>>)
    returns (attached': map<string, seq<PullRequest>>, lists': map<string, seq<set<string>>>,
             index': map<string, set<string>>, leftovers': seq<seq<PullRequest>>)
    requires k < |cs| && ClusterList(pulls, cs) && cs[k] in cs && members == Lists(cs)[k]
    requires KeptMap(prs, own, kept) && "" !in kept && to == Destinations(Known(PullSet(prs), own), cs)
    requires AttachedAfter(kept, to, Lists(cs), k, attached) && Indexed(attached, lists, index)
    requires leftovers == Leftovers(to, Lists(cs), k)
    ensures AttachedAfter(kept, to, Lists(cs), k + 1, attached') && Indexed(attached', lists', index')
    ensures leftovers' == Leftovers(to, Lists(cs), k + 1)
  {
    if exists p :: p in members && p.PathSet() == {} {
      ghost var p :| p in members && p.PathSet() == {};
      PathlessIsAlone(pulls, cs[k], p);
      assert members == [p];
      attached', lists', index' := attached, lists, index;
      leftovers' := leftovers + seq(|members|, i requires 0 <= i < |members| => [members[i]]);
      assert leftovers' == leftovers + [members];
      assert Destination(Known(PullSet(prs), own), cs[k]) == None;
      AttachedStep(kept, to, Lists(cs), k, attached);
    } else {
      attached', lists', index', leftovers' :=
        PlaceByPaths(prs, own, pulls, kept, cs, to, k, members, attached, lists, index, leftovers);
    }
  }
}
