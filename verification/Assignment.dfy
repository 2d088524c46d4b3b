/**
 The whole of `assign_incremental`: where every pull request goes, the partition this
 makes, the identities it uses, and why no input order matters.
 */
module Assignment {
  import opened Order
  import opened Models
  import opened GroupIds
  import opened Cluster
  import opened ClusterByValue
  import opened GroupSearch
  import opened Assign

  // ---- fresh identities ----

  function IdsOf(groups: seq<Group>): (ids: seq<string>)
    ensures |ids| == |groups| && forall i | 0 <= i < |ids| :: ids[i] == groups[i].groupId
  {
    seq(|groups|, i requires 0 <= i < |groups| => groups[i].groupId)
  }

  /** The first number above every numbered identity among the first `n`. */
  function StartNumber(ids: seq<string>, n: nat): (start: nat)
    requires n <= |ids|
    ensures start >= 1
  {
    if n == 0 then 1 else
      var before := StartNumber(ids, n - 1);
      if IsNumbered(ids[n - 1]) && NumberOf(ids[n - 1]) >= before then NumberOf(ids[n - 1]) + 1 else before
  }

  lemma {:induction false} StartNumberIsFree(ids: seq<string>, n: nat, i: nat)
    requires i < n <= |ids| && IsNumbered(ids[i])
    ensures NumberOf(ids[i]) < StartNumber(ids, n)
  {
    if i < n - 1 { StartNumberIsFree(ids, n - 1, i); }
  }

  /** Identities that already occur do not move the start. */
  lemma {:induction false} StartNumberIgnoresRepeats(ids: seq<string>, more: seq<string>, n: nat)
    requires n <= |more| && forall x | x in more :: x in ids
    ensures StartNumber(ids + more, |ids| + n) == StartNumber(ids, |ids|)
  {
    if n == 0 {
      StartNumberPrefix(ids, more, |ids|);
    } else {
      StartNumberIgnoresRepeats(ids, more, n - 1);
      var x := more[n - 1];
      assert (ids + more)[|ids| + n - 1] == x && x in more;
      var i :| 0 <= i < |ids| && ids[i] == x;
      if IsNumbered(x) { StartNumberIsFree(ids, |ids|, i); }
    }
  }

  lemma {:induction false} StartNumberPrefix(ids: seq<string>, more: seq<string>, n: nat)
    requires n <= |ids|
    ensures StartNumber(ids + more, n) == StartNumber(ids, n)
  {
    if n > 0 { StartNumberPrefix(ids, more, n - 1); }
  }

  /** New ids start one past the largest numbered id, and at 1 without any. */
  lemma {:induction false} StartNumberIs(ids: seq<string>, n: nat)
    requires n <= |ids|
    ensures forall i | 0 <= i < n && IsNumbered(ids[i]) :: NumberOf(ids[i]) < StartNumber(ids, n)
    ensures StartNumber(ids, n) == 1
            || exists i :: 0 <= i < n && IsNumbered(ids[i]) && NumberOf(ids[i]) + 1 == StartNumber(ids, n)
  {
    hide IsNumbered, NumberOf;
    if n > 0 { StartNumberIs(ids, n - 1); }
  }

  /** `_next_group_ids`. */
  method NextGroupIds(existingIds: seq<string>, n: nat) returns (ids: seq<string>)
    ensures |ids| == n && forall i | 0 <= i < n :: ids[i] == GroupId(StartNumber(existingIds, |existingIds|) + i)
  {
    var start := 1;
    for i := 0 to |existingIds|
      invariant start == StartNumber(existingIds, i)
    {
      if IsNumbered(existingIds[i]) {
        var number := NumberOf(existingIds[i]);
        start := if number >= start then number + 1 else start;
      }
    }
    ids := seq(n, i requires 0 <= i < n => GroupId(start + i));
  }

  // ---- where every pull request goes, as a function of their set ----

  datatype Request = Request(existing: seq<Group>, repo: string, reserved: set<string>) {
    function Own(): seq<Group> { OwnGroups(existing, repo) }

    function TakenIds(): seq<string> { SortedStrings(reserved) + IdsOf(existing) }

    function Start(): nat { StartNumber(TakenIds(), |TakenIds()|) }

    ghost predicate Valid() {
      forall g | g in existing :: g.groupId != ""
    }
  }

  function NewId(r: Request, i: nat): string { GroupId(r.Start() + i) }

  ghost function NewClusters(r: Request, pulls: set<PullRequest>): (cs: seq<set<PullRequest>>)
    requires DistinctSet(pulls)
  {
    Clusters(FreshSet(pulls, r.Own()))
  }

  ghost function NewDestinations(r: Request, pulls: set<PullRequest>): (to: seq<Option<string>>)
    requires DistinctSet(pulls)
    ensures |to| == |NewClusters(r, pulls)|
  {
    Destinations(Known(pulls, r.Own()), NewClusters(r, pulls))
  }

  ghost function CountNone(to: seq<Option<string>>, k: nat): nat
    requires k <= |to|
  {
    if k == 0 then 0 else CountNone(to, k - 1) + (if to[k - 1].None? then 1 else 0)
  }

  ghost function ClusterIndex(r: Request, pulls: set<PullRequest>, p: PullRequest): (l: nat)
    requires DistinctSet(pulls) && p in FreshSet(pulls, r.Own())
    ensures l < |NewClusters(r, pulls)| && p in NewClusters(r, pulls)[l]
  {
    OwnComponent(FreshSet(pulls, r.Own()), p);
    assert ComponentOf(FreshSet(pulls, r.Own()), p) in NewClusters(r, pulls);
    var l :| 0 <= l < |NewClusters(r, pulls)| && p in NewClusters(r, pulls)[l];
    l
  }

  /** The group of a pull request: retained, joined with its cluster, or started by its cluster. */
  ghost function Home(r: Request, pulls: set<PullRequest>, p: PullRequest): string
    requires DistinctSet(pulls) && p in pulls
  {
    if Retention(r.Own(), p).Some? then Retention(r.Own(), p).value else
      var l := ClusterIndex(r, pulls, p);
      var to := NewDestinations(r, pulls);
      if to[l].Some? then to[l].value else NewId(r, CountNone(to, l))
  }

  // ---- the member lists ----

  ghost function NewIds(r: Request, n: nat): set<string> {
    set i: nat | i < n :: NewId(r, i)
  }

  ghost function NewList(r: Request, left: seq<seq<PullRequest>>, gid: string): seq<PullRequest> {
    if IsNumbered(gid) && 0 <= NumberOf(gid) - r.Start() < |left| then left[NumberOf(gid) - r.Start()] else []
  }

  ghost function NewLists(r: Request, pulls: set<PullRequest>): seq<seq<PullRequest>>
    requires DistinctSet(pulls)
  {
    Leftovers(NewDestinations(r, pulls), Lists(NewClusters(r, pulls)), |NewClusters(r, pulls)|)
  }

  /** The members of a retained group: those it keeps, then the clusters that join it. */
  ghost function RetainedList(r: Request, prs: seq<PullRequest>, gid: string): seq<PullRequest>
    requires DistinctSet(PullSet(prs))
  {
    var cs := NewClusters(r, PullSet(prs));
    KeptSeq(prs, |prs|, r.Own(), gid) + JoinedSeq(NewDestinations(r, PullSet(prs)), Lists(cs), |cs|, gid)
  }

  ghost function AssignedMembers(r: Request, prs: seq<PullRequest>): map<string, seq<PullRequest>>
    requires DistinctSet(PullSet(prs))
  {
    var kept, left := KeptIds(PullSet(prs), r.Own()), NewLists(r, PullSet(prs));
    map gid | gid in kept + NewIds(r, |left|) ::
      if gid in kept then RetainedList(r, prs, gid) else NewList(r, left, gid)
  }

  lemma {:induction false} LeftoverAt<T>(to: seq<Option<string>>, lists: seq<T>, k: nat, l: nat)
    requires l < k <= |to| == |lists| && to[l].None?
    ensures CountNone(to, l) < |Leftovers(to, lists, k)| == CountNone(to, k)
    ensures Leftovers(to, lists, k)[CountNone(to, l)] == lists[l]
  {
    LeftoverCount(to, lists, k - 1);
    if l < k - 1 { LeftoverAt(to, lists, k - 1, l); }
  }

  lemma {:induction false} LeftoverCount<T>(to: seq<Option<string>>, lists: seq<T>, k: nat)
    requires k <= |to| == |lists|
    ensures |Leftovers(to, lists, k)| == CountNone(to, k)
  {
    if k > 0 { LeftoverCount(to, lists, k - 1); }
  }

  lemma {:induction false} LeftoverSource<T>(to: seq<Option<string>>, lists: seq<T>, k: nat, i: nat) returns (l: nat)
    requires k <= |to| == |lists| && i < |Leftovers(to, lists, k)|
    ensures l < k && to[l].None? && CountNone(to, l) == i && lists[l] == Leftovers(to, lists, k)[i]
  {
    LeftoverCount(to, lists, k - 1);
    if i < |Leftovers(to, lists, k - 1)| {
      l := LeftoverSource(to, lists, k - 1, i);
    } else {
      l := k - 1;
    }
  }

  /** New identities avoid every reserved and every existing one, of any repository. */
  lemma NewIdIsFree(r: Request, i: nat)
    ensures NewId(r, i) !in r.TakenIds()
    ensures NewId(r, i) !in r.reserved
    ensures forall g | g in r.existing :: g.groupId != NewId(r, i)
  {
    var id, taken := NewId(r, i), r.TakenIds();
    NumberOfGroupId(r.Start() + i);
    assert id !in taken by {
      if id in taken {
        var j :| 0 <= j < |taken| && taken[j] == id;
        StartNumberIsFree(taken, |taken|, j);
      }
    }
    assert forall x | x in r.reserved :: x in SortedStrings(r.reserved);
    forall g | g in r.existing
      ensures g.groupId in taken
    {
      var j :| 0 <= j < |r.existing| && r.existing[j] == g;
      assert IdsOf(r.existing)[j] == g.groupId;
      assert taken[|SortedStrings(r.reserved)| + j] == g.groupId;
    }
  }

  lemma {:induction false} OwnGroupIsExisting(existing: seq<Group>, repo: string, g: Group)
    ensures g in OwnGroups(existing, repo) <==> g in existing && g.repo == repo
  {
    if existing != [] { OwnGroupIsExisting(existing[1..], repo, g); }
  }

  lemma {:induction false} OldGroupIsOwn(own: seq<Group>, n: nat, number: int)
    requires n <= |own|
    ensures var g := OldGroup(own, n, number); g.Some? ==> g.value in own && number in g.value.prNumbers
  {
    if n > 0 && number !in own[n - 1].prNumbers { OldGroupIsOwn(own, n - 1, number); }
  }

  /** A retained identity is that of an existing group of this repository. */
  lemma KeptIdIsOwn(r: Request, pulls: set<PullRequest>, gid: string)
    requires gid in KeptIds(pulls, r.Own())
    ensures exists g :: g in r.existing && g.repo == r.repo && g.groupId == gid
  {
    var p :| p in pulls && Retention(r.Own(), p) == Some(gid);
    OldGroupIsOwn(r.Own(), |r.Own()|, p.number);
    var g := OldGroup(r.Own(), |r.Own()|, p.number).value;
    OwnGroupIsExisting(r.existing, r.repo, g);
    assert g.groupId == gid;
  }

  lemma NewIdNotKept(r: Request, pulls: set<PullRequest>, i: nat)
    ensures NewId(r, i) !in KeptIds(pulls, r.Own())
  {
    NewIdIsFree(r, i);
    if NewId(r, i) in KeptIds(pulls, r.Own()) {
      KeptIdIsOwn(r, pulls, NewId(r, i));
    }
  }

  lemma NewListAt(r: Request, left: seq<seq<PullRequest>>, i: nat)
    requires i < |left|
    ensures NewList(r, left, NewId(r, i)) == left[i]
  {
    hide GroupId, IsNumbered, NumberOf;
    NumberOfGroupId(r.Start() + i);
  }

  lemma NewClustersList(r: Request, pulls: set<PullRequest>)
    requires DistinctSet(pulls)
    ensures ClusterList(FreshSet(pulls, r.Own()), NewClusters(r, pulls))
  {
    var new', cs := FreshSet(pulls, r.Own()), NewClusters(r, pulls);
    forall c | c in cs
      ensures c in PullComponents(new') && DistinctSet(c)
    {
      ComponentIsSubset(new', c);
    }
  }

  lemma ClusterIndexUnique(r: Request, pulls: set<PullRequest>, p: PullRequest, l: nat)
    requires DistinctSet(pulls) && l < |NewClusters(r, pulls)| && p in NewClusters(r, pulls)[l]
    ensures p in FreshSet(pulls, r.Own()) && l == ClusterIndex(r, pulls, p)
  {
    var new', cs := FreshSet(pulls, r.Own()), NewClusters(r, pulls);
    assert cs[l] in cs;
    ComponentOfMember(new', cs[l], p);
    var k := ClusterIndex(r, pulls, p);
    assert cs[k] in cs;
    ComponentOfMember(new', cs[k], p);
  }

  lemma ListMembers(r: Request, pulls: set<PullRequest>, l: nat, p: PullRequest)
    requires DistinctSet(pulls) && l < |NewClusters(r, pulls)|
    ensures p in Lists(NewClusters(r, pulls))[l] <==> p in NewClusters(r, pulls)[l]
  {
    NewClustersList(r, pulls);
    assert NewClusters(r, pulls)[l] in NewClusters(r, pulls);
  }

  lemma DestinationIsKept(r: Request, pulls: set<PullRequest>, l: nat)
    requires DistinctSet(pulls) && l < |NewClusters(r, pulls)|
    ensures var d := NewDestinations(r, pulls)[l]; d.Some? ==> d.value in KeptIds(pulls, r.Own())
  {
    DestinationIsKnown(Known(pulls, r.Own()), NewClusters(r, pulls)[l]);
  }

  lemma RetainedHome(r: Request, prs: seq<PullRequest>, gid: string, p: PullRequest)
    requires DistinctNumbers(prs) && DistinctSet(PullSet(prs)) && gid in KeptIds(PullSet(prs), r.Own())
    ensures p in RetainedList(r, prs, gid) <==> p in PullSet(prs) && Home(r, PullSet(prs), p) == gid
  {
    hide NewId, NewClusters, NewDestinations, KeptSeq, JoinedSeq, KeptIds, Retention, Clusters, DistinctSet,
         DistinctNumbers, CountNone;
    var pulls := PullSet(prs);
    var cs, to := NewClusters(r, pulls), NewDestinations(r, pulls);
    assert prs[..|prs|] == prs;
    KeptSeqElements(prs, |prs|, r.Own(), gid);
    JoinedSeqElements(to, Lists(cs), |cs|, gid, p);
    if Joins(to, Lists(cs), |cs|, gid, p) {
      var l :| 0 <= l < |cs| && to[l] == Some(gid) && p in Lists(cs)[l];
      ListMembers(r, pulls, l, p);
      ClusterIndexUnique(r, pulls, p, l);
    }
    if p in pulls && Home(r, pulls, p) == gid && Retention(r.Own(), p).None? {
      var l := ClusterIndex(r, pulls, p);
      ListMembers(r, pulls, l, p);
      NewIdNotKept(r, pulls, CountNone(to, l));
      assert to[l] == Some(gid);
    }
  }

  lemma NewListIsHome(r: Request, pulls: set<PullRequest>, i: nat, p: PullRequest)
    requires DistinctSet(pulls) && i < |NewLists(r, pulls)| && p in NewLists(r, pulls)[i]
    ensures p in pulls && Home(r, pulls, p) == NewId(r, i)
  {
    var cs, to := NewClusters(r, pulls), NewDestinations(r, pulls);
    var l := LeftoverSource(to, Lists(cs), |cs|, i);
    ListMembers(r, pulls, l, p);
    ClusterIndexUnique(r, pulls, p, l);
  }

  lemma NewHomeCluster(r: Request, pulls: set<PullRequest>, i: nat, p: PullRequest) returns (k: nat)
    requires DistinctSet(pulls) && p in pulls && Home(r, pulls, p) == NewId(r, i)
    ensures k < |NewClusters(r, pulls)| && NewDestinations(r, pulls)[k].None?
    ensures CountNone(NewDestinations(r, pulls), k) == i && p in NewClusters(r, pulls)[k]
  {
    hide GroupId, NewClusters, NewDestinations, DistinctSet, IsNumbered, NumberOf;
    NewIdNotKept(r, pulls, i);
    assert Retention(r.Own(), p).None?;
    k := ClusterIndex(r, pulls, p);
    DestinationIsKept(r, pulls, k);
    NumberOfGroupId(r.Start() + i);
    NumberOfGroupId(r.Start() + CountNone(NewDestinations(r, pulls), k));
  }

  lemma HomeIsNewList(r: Request, pulls: set<PullRequest>, i: nat, p: PullRequest)
    requires DistinctSet(pulls) && i < |NewLists(r, pulls)| && p in pulls && Home(r, pulls, p) == NewId(r, i)
    ensures p in NewLists(r, pulls)[i]
  {
    var k := NewHomeCluster(r, pulls, i, p);
    var cs, to := NewClusters(r, pulls), NewDestinations(r, pulls);
    LeftoverAt(to, Lists(cs), |cs|, k);
    ListMembers(r, pulls, k, p);
  }

  /** Membership is decided by `Home`: every pull request is in the list of its home and in no other. */
  lemma MembersAreAtHome(r: Request, prs: seq<PullRequest>, gid: string, p: PullRequest)
    requires DistinctNumbers(prs) && DistinctSet(PullSet(prs)) && gid in AssignedMembers(r, prs)
    ensures p in AssignedMembers(r, prs)[gid] <==> p in PullSet(prs) && Home(r, PullSet(prs), p) == gid
  {
    var kept, left := KeptIds(PullSet(prs), r.Own()), NewLists(r, PullSet(prs));
    if gid in kept {
      RetainedHome(r, prs, gid, p);
    } else {
      var i: nat :| i < |left| && NewId(r, i) == gid;
      NewListAt(r, left, i);
      if p in left[i] { NewListIsHome(r, PullSet(prs), i, p); }
      if p in PullSet(prs) && Home(r, PullSet(prs), p) == gid { HomeIsNewList(r, PullSet(prs), i, p); }
    }
  }

  lemma HomeExists(r: Request, prs: seq<PullRequest>, p: PullRequest)
    requires DistinctSet(PullSet(prs)) && p in prs
    ensures Home(r, PullSet(prs), p) in AssignedMembers(r, prs)
  {
    var pulls := PullSet(prs);
    if Retention(r.Own(), p).None? {
      var cs, to := NewClusters(r, pulls), NewDestinations(r, pulls);
      var l := ClusterIndex(r, pulls, p);
      DestinationIsKept(r, pulls, l);
      if to[l].None? {
        LeftoverAt(to, Lists(cs), |cs|, l);
        assert NewId(r, CountNone(to, l)) in NewIds(r, |NewLists(r, pulls)|);
      }
    }
  }

  // ---- no list repeats a member ----

  lemma {:induction false} KeptSeqDistinct(prs: seq<PullRequest>, n: nat, own: seq<Group>, gid: string)
    requires n <= |prs| && DistinctNumbers(prs)
    ensures DistinctNumbers(KeptSeq(prs, n, own, gid))
  {
    if n > 0 {
      KeptSeqDistinct(prs, n - 1, own, gid);
      KeptSeqElements(prs, n - 1, own, gid);
      var before := KeptSeq(prs, n - 1, own, gid);
      forall i | 0 <= i < |before|
        ensures before[i].number != prs[n - 1].number
      {
        assert before[i] in prs[..n - 1];
      }
    }
  }

  lemma DistinctConcat(a: seq<PullRequest>, b: seq<PullRequest>)
    requires DistinctNumbers(a) && DistinctNumbers(b)
    requires forall p, q | p in a && q in b :: p.number != q.number
    ensures DistinctNumbers(a + b)
  {
    forall i, j | 0 <= i < j < |a + b|
      ensures (a + b)[i].number != (a + b)[j].number
    {
      if i < |a| <= j { assert (a + b)[i] == a[i] && (a + b)[j] == b[j - |a|]; }
    }
  }

  lemma ListedDistinct(c: set<PullRequest>)
    requires DistinctSet(c)
    ensures DistinctNumbers(Listed(c))
  {
    var s := ByNumber(c);
    forall i, j | 0 <= i < j < |s|
      ensures s[i].number != s[j].number
    {
      assert s[i] in c && s[j] in c;
    }
  }

  /** Members of different pull requests have different numbers. */
  lemma DifferentNumbers(pulls: set<PullRequest>, p: PullRequest, q: PullRequest)
    requires DistinctSet(pulls) && p in pulls && q in pulls && p != q
    ensures p.number != q.number
  {}

  ghost predicate Separate(lists: seq<seq<PullRequest>>) {
    && (forall l | 0 <= l < |lists| :: DistinctNumbers(lists[l]))
    && forall l, m, p, q | 0 <= l < m < |lists| && p in lists[l] && q in lists[m] :: p.number != q.number
  }

  lemma {:induction false} JoinedSeqDistinct(to: seq<Option<string>>, lists: seq<seq<PullRequest>>, k: nat, gid: string)
    requires k <= |to| == |lists| && Separate(lists)
    ensures DistinctNumbers(JoinedSeq(to, lists, k, gid))
  {
    if k > 0 {
      JoinedSeqDistinct(to, lists, k - 1, gid);
      var before := JoinedSeq(to, lists, k - 1, gid);
      forall p, q | p in before && q in lists[k - 1]
        ensures p.number != q.number
      {
        JoinedSeqElements(to, lists, k - 1, gid, p);
        var l :| 0 <= l < k - 1 && to[l] == Some(gid) && p in lists[l];
      }
      DistinctConcat(before, lists[k - 1]);
    }
  }

  lemma NewListsSeparate(r: Request, pulls: set<PullRequest>)
    requires DistinctSet(pulls)
    ensures Separate(Lists(NewClusters(r, pulls)))
  {
    var cs := NewClusters(r, pulls);
    NewClustersList(r, pulls);
    forall l | 0 <= l < |cs|
      ensures DistinctNumbers(Lists(cs)[l])
    {
      assert cs[l] in cs;
      ListedDistinct(cs[l]);
    }
    forall l, m, p, q | 0 <= l < m < |cs| && p in Lists(cs)[l] && q in Lists(cs)[m]
      ensures p.number != q.number
    {
      ListMembers(r, pulls, l, p);
      ListMembers(r, pulls, m, q);
      ClusterIndexUnique(r, pulls, p, l);
      ClusterIndexUnique(r, pulls, q, m);
      DifferentNumbers(pulls, p, q);
    }
  }

  lemma RetainedDistinct(r: Request, prs: seq<PullRequest>, gid: string)
    requires DistinctNumbers(prs) && DistinctSet(PullSet(prs))
    ensures DistinctNumbers(RetainedList(r, prs, gid))
  {
    var pulls := PullSet(prs);
    var cs, to := NewClusters(r, pulls), NewDestinations(r, pulls);
    var kept, joined := KeptSeq(prs, |prs|, r.Own(), gid), JoinedSeq(to, Lists(cs), |cs|, gid);
    KeptSeqDistinct(prs, |prs|, r.Own(), gid);
    NewListsSeparate(r, pulls);
    JoinedSeqDistinct(to, Lists(cs), |cs|, gid);
    KeptSeqElements(prs, |prs|, r.Own(), gid);
    assert prs[..|prs|] == prs;
    forall p, q | p in kept && q in joined
      ensures p.number != q.number
    {
      JoinedSeqElements(to, Lists(cs), |cs|, gid, q);
      var l :| 0 <= l < |cs| && to[l] == Some(gid) && q in Lists(cs)[l];
      ListMembers(r, pulls, l, q);
      ClusterIndexUnique(r, pulls, q, l);
      DifferentNumbers(pulls, p, q);
    }
    DistinctConcat(kept, joined);
  }

  lemma MembersDistinct(r: Request, prs: seq<PullRequest>, gid: string)
    requires DistinctNumbers(prs) && DistinctSet(PullSet(prs)) && gid in AssignedMembers(r, prs)
    ensures DistinctNumbers(AssignedMembers(r, prs)[gid])
  {
    var pulls := PullSet(prs);
    if gid in KeptIds(pulls, r.Own()) {
      RetainedDistinct(r, prs, gid);
    } else {
      var cs, to := NewClusters(r, pulls), NewDestinations(r, pulls);
      var i: nat :| i < |NewLists(r, pulls)| && NewId(r, i) == gid;
      NewListAt(r, NewLists(r, pulls), i);
      var l := LeftoverSource(to, Lists(cs), |cs|, i);
      NewListsSeparate(r, pulls);
    }
  }

  lemma MembersNonEmpty(r: Request, prs: seq<PullRequest>, gid: string)
    requires DistinctNumbers(prs) && DistinctSet(PullSet(prs)) && gid in AssignedMembers(r, prs)
    ensures AssignedMembers(r, prs)[gid] != []
  {
    var pulls := PullSet(prs);
    if gid in KeptIds(pulls, r.Own()) {
      var p :| p in pulls && Retention(r.Own(), p) == Some(gid);
      MembersAreAtHome(r, prs, gid, p);
    } else {
      var i: nat :| i < |NewLists(r, pulls)| && NewId(r, i) == gid;
      NewListAt(r, NewLists(r, pulls), i);
      var cs, to := NewClusters(r, pulls), NewDestinations(r, pulls);
      var l := LeftoverSource(to, Lists(cs), |cs|, i);
      NewClustersList(r, pulls);
      assert cs[l] in cs;
      ComponentIsSubset(FreshSet(pulls, r.Own()), cs[l]);
      var p :| p in cs[l];
      ListMembers(r, pulls, l, p);
    }
  }

  // ---- the resulting groups ----

  function LeastMember(m: map<string, seq<PullRequest>>, gid: string): int {
    if gid in m then MinOf(set p | p in m[gid] :: p.number) else 0
  }

  /** Every list has a member, and no number occurs under two identities. */
  ghost predicate SeparateMembers(m: map<string, seq<PullRequest>>) {
    && (forall g | g in m :: m[g] != [])
    && forall g, h, p: PullRequest, q: PullRequest |
         g in m && h in m && p in m[g] && q in m[h] && p.number == q.number :: g == h
  }

  lemma LeastMemberIsMember(m: map<string, seq<PullRequest>>, g: string)
    requires g in m && m[g] != []
    ensures exists p :: p in m[g] && p.number == LeastMember(m, g)
  {
    var numbers := set p | p in m[g] :: p.number;
    assert m[g][0] in m[g] && m[g][0].number in numbers;
    assert LeastMember(m, g) in numbers;
  }

  lemma GroupOrderTotal(m: map<string, seq<PullRequest>>)
    requires SeparateMembers(m)
    ensures TotalOn((g, h) => LeastMember(m, g) <= LeastMember(m, h), m.Keys)
  {
    forall g, h | g in m && h in m && LeastMember(m, g) == LeastMember(m, h)
      ensures g == h
    {
      LeastMemberIsMember(m, g);
      LeastMemberIsMember(m, h);
    }
  }

  function GroupOrder(m: map<string, seq<PullRequest>>): (order: seq<string>)
    requires SeparateMembers(m)
    ensures |order| == |m.Keys| && forall g :: g in order <==> g in m
    ensures forall i, j | 0 <= i < j < |order| ::
              order[i] != order[j] && LeastMember(m, order[i]) <= LeastMember(m, order[j])
  {
    GroupOrderTotal(m);
    Ordered(m.Keys, (g, h) => LeastMember(m, g) <= LeastMember(m, h))
  }

  function GroupAt(m: map<string, seq<PullRequest>>, repo: string, gid: string): Group {
    BuildGroup(gid, if gid in m then m[gid] else []).(repo := repo)
  }

  function GroupsAt(m: map<string, seq<PullRequest>>, repo: string, order: seq<string>): (groups: seq<Group>)
    ensures |groups| == |order| && forall i | 0 <= i < |order| :: groups[i] == GroupAt(m, repo, order[i])
  {
    seq(|order|, i requires 0 <= i < |order| => GroupAt(m, repo, order[i]))
  }

  /** One group per identity, by least member. */
  function GroupsFor(m: map<string, seq<PullRequest>>, repo: string): seq<Group>
    requires SeparateMembers(m)
  {
    GroupsAt(m, repo, GroupOrder(m))
  }

  lemma AssignedSeparate(r: Request, prs: seq<PullRequest>)
    requires DistinctNumbers(prs)
    ensures DistinctSet(PullSet(prs)) && SeparateMembers(AssignedMembers(r, prs))
  {
    DistinctPulls(prs);
    var m := AssignedMembers(r, prs);
    forall g | g in m
      ensures m[g] != []
    {
      MembersNonEmpty(r, prs, g);
    }
    forall g, h, p: PullRequest, q: PullRequest | g in m && h in m && p in m[g] && q in m[h] && p.number == q.number
      ensures g == h
    {
      MembersAreAtHome(r, prs, g, p);
      MembersAreAtHome(r, prs, h, q);
    }
  }

  // ---- main results ----

  /** `m` partitions the input: every pull request is in exactly one list, once. */
  ghost predicate Partitions(m: map<string, seq<PullRequest>>, prs: seq<PullRequest>) {
    && (forall p | p in prs :: exists g :: g in m && p in m[g])
    && (forall g, h, p | g in m && h in m && p in m[g] && p in m[h] :: g == h)
    && (forall g, p | g in m && p in m[g] :: p in prs)
    && (forall g | g in m :: m[g] != [] && DistinctNumbers(m[g]))
  }

  lemma PartitionsIf(m: map<string, seq<PullRequest>>, prs: seq<PullRequest>, home: PullRequest -> string)
    requires forall p | p in prs :: home(p) in m
    requires forall g, p {:trigger p in m[g]} | g in m :: p in m[g] <==> p in prs && home(p) == g
    requires forall g | g in m :: m[g] != [] && DistinctNumbers(m[g])
    ensures Partitions(m, prs)
  {
    forall p | p in prs
      ensures exists g :: g in m && p in m[g]
    {
      assert home(p) in m && p in m[home(p)];
    }
    forall g, h, p | g in m && h in m && p in m[g] && p in m[h]
      ensures g == h
    {
      assert home(p) == g && home(p) == h;
    }
  }

  ghost function HomeIn(r: Request, pulls: set<PullRequest>): PullRequest -> string
    requires DistinctSet(pulls)
  {
    (p: PullRequest) => if p in pulls then Home(r, pulls, p) else ""
  }

  lemma ListsAreHomes(r: Request, prs: seq<PullRequest>, home: PullRequest -> string)
    requires DistinctNumbers(prs) && DistinctSet(PullSet(prs)) && home == HomeIn(r, PullSet(prs))
    ensures forall p | p in prs :: home(p) in AssignedMembers(r, prs)
    ensures forall g, p {:trigger p in AssignedMembers(r, prs)[g]} | g in AssignedMembers(r, prs) ::
              p in AssignedMembers(r, prs)[g] <==> p in prs && home(p) == g
  {
    forall p | p in prs ensures home(p) in AssignedMembers(r, prs) { HomeExists(r, prs, p); }
    forall g, p | g in AssignedMembers(r, prs)
      ensures p in AssignedMembers(r, prs)[g] <==> p in prs && home(p) == g
    {
      MembersAreAtHome(r, prs, g, p);
    }
  }

  lemma AssignPartitions(r: Request, prs: seq<PullRequest>)
    requires DistinctNumbers(prs)
    ensures DistinctSet(PullSet(prs)) && Partitions(AssignedMembers(r, prs), prs)
  {
    DistinctPulls(prs);
    ListsAreHomes(r, prs, HomeIn(r, PullSet(prs)));
    forall g | g in AssignedMembers(r, prs)
      ensures AssignedMembers(r, prs)[g] != [] && DistinctNumbers(AssignedMembers(r, prs)[g])
    {
      MembersDistinct(r, prs, g);
      MembersNonEmpty(r, prs, g);
    }
    PartitionsIf(AssignedMembers(r, prs), prs, HomeIn(r, PullSet(prs)));
  }

  /** A used identity is that of an existing group of this repository or avoids all reserved and existing ones. */
  lemma AssignedIdentities(r: Request, prs: seq<PullRequest>, gid: string)
    requires DistinctSet(PullSet(prs)) && gid in AssignedMembers(r, prs)
    ensures (exists g :: g in r.existing && g.repo == r.repo && g.groupId == gid)
            || (gid !in r.reserved && forall g | g in r.existing :: g.groupId != gid)
  {
    if gid in KeptIds(PullSet(prs), r.Own()) {
      KeptIdIsOwn(r, PullSet(prs), gid);
    } else {
      var i: nat :| i < |NewLists(r, PullSet(prs))| && NewId(r, i) == gid;
      NewIdIsFree(r, i);
    }
  }

  /** Placement is decided by retention, and otherwise by the cluster's own exhaustive search. */
  lemma AssignedPlacement(r: Request, prs: seq<PullRequest>, gid: string, p: PullRequest)
    requires DistinctNumbers(prs) && DistinctSet(PullSet(prs)) && gid in AssignedMembers(r, prs)
             && p in AssignedMembers(r, prs)[gid]
    ensures Retention(r.Own(), p).Some? ==> gid == Retention(r.Own(), p).value
    ensures Retention(r.Own(), p).None? ==>
              p in FreshSet(PullSet(prs), r.Own())
              && var cluster := ComponentOf(FreshSet(PullSet(prs), r.Own()), p);
                 var d := Destination(Known(PullSet(prs), r.Own()), cluster);
                 (d.Some? ==> gid == d.value)
                 && (d.None? ==> forall q :: q in AssignedMembers(r, prs)[gid] <==> q in cluster)
  {
    var pulls := PullSet(prs);
    MembersAreAtHome(r, prs, gid, p);
    if Retention(r.Own(), p).None? {
      var l := ClusterIndex(r, pulls, p);
      var cs, to := NewClusters(r, pulls), NewDestinations(r, pulls);
      assert cs[l] in cs;
      ComponentOfMember(FreshSet(pulls, r.Own()), cs[l], p);
      if to[l].None? {
        LeftoverAt(to, Lists(cs), |cs|, l);
        NewIdNotKept(r, pulls, CountNone(to, l));
        NewListAt(r, NewLists(r, pulls), CountNone(to, l));
        forall q ensures q in Lists(cs)[l] <==> q in cs[l] { ListMembers(r, pulls, l, q); }
      }
    }
  }

  /** The input order does not matter: the same identities with the same members. */
  lemma AssignOrderIndependent(r: Request, prs: seq<PullRequest>, prs': seq<PullRequest>)
    requires DistinctNumbers(prs) && DistinctNumbers(prs') && multiset(prs) == multiset(prs')
    ensures DistinctSet(PullSet(prs)) && DistinctSet(PullSet(prs'))
    ensures AssignedMembers(r, prs).Keys == AssignedMembers(r, prs').Keys
    ensures forall g | g in AssignedMembers(r, prs) ::
              multiset(AssignedMembers(r, prs)[g]) == multiset(AssignedMembers(r, prs')[g])
  {
    assert forall p :: p in prs <==> p in multiset(prs);
    assert forall p :: p in prs' <==> p in multiset(prs');
    assert PullSet(prs) == PullSet(prs');
    DistinctPulls(prs);
    DistinctPulls(prs');
    forall g | g in AssignedMembers(r, prs)
      ensures multiset(AssignedMembers(r, prs)[g]) == multiset(AssignedMembers(r, prs')[g])
    {
      MembersDistinct(r, prs, g);
      MembersDistinct(r, prs', g);
      forall p
        ensures p in AssignedMembers(r, prs)[g] <==> p in AssignedMembers(r, prs')[g]
      {
        MembersAreAtHome(r, prs, g, p);
        MembersAreAtHome(r, prs', g, p);
      }
      SameDistinctElements(AssignedMembers(r, prs)[g], AssignedMembers(r, prs')[g]);
    }
  }

  lemma {:induction false} CountedOnce(s: seq<PullRequest>, p: PullRequest)
    requires DistinctNumbers(s)
    ensures multiset(s)[p] == if p in s then 1 else 0
  {
    if s != [] {
      var head, last := s[..|s| - 1], s[|s| - 1];
      assert s == head + [last];
      CountedOnce(head, p);
      assert last !in head;
    }
  }

  lemma SameDistinctElements(a: seq<PullRequest>, b: seq<PullRequest>)
    requires DistinctNumbers(a) && DistinctNumbers(b) && forall p :: p in a <==> p in b
    ensures multiset(a) == multiset(b)
  {
    forall p ensures multiset(a)[p] == multiset(b)[p] { CountedOnce(a, p); CountedOnce(b, p); }
  }

  // ---- the method ----

  /** `[by_num[n] for n in numbers if n in by_num]`. */
  function Pick(byNum: map<int, PullRequest>, numbers: seq<int>): seq<PullRequest> {
    if numbers == [] then [] else
      (if numbers[0] in byNum then [byNum[numbers[0]]] else []) + Pick(byNum, numbers[1..])
  }

  lemma {:induction false} PickNumbers(byNum: map<int, PullRequest>, members: seq<PullRequest>)
    requires forall p | p in members :: p.number in byNum && byNum[p.number] == p
    ensures Pick(byNum, Numbers(members)) == members
  {
    if members != [] {
      assert Numbers(members)[1..] == Numbers(members[1..]);
      assert members[0] in members;
      PickNumbers(byNum, members[1..]);
    }
  }

  lemma ByNumberAscends(c: set<PullRequest>)
    requires DistinctSet(c)
    ensures SortNumbers(Numbers(ByNumber(c))) == Numbers(ByNumber(c))
  {
    var members := ByNumber(c);
    forall i, j | 0 <= i < j < |members|
      ensures Numbers(members)[i] < Numbers(members)[j]
    {
      assert members[i] in c && members[j] in c;
    }
    SortNumbersOfSorted(Numbers(members));
  }

  ghost predicate Finds(byNum: map<int, PullRequest>, pulls: set<PullRequest>) {
    forall p | p in pulls :: p.number in byNum && byNum[p.number] == p
  }

  /** The members looked up by a fresh group's numbers are its cluster. */
  lemma ClusterMembers(byNum: map<int, PullRequest>, pulls: set<PullRequest>, c: set<PullRequest>)
    requires c <= pulls && DistinctSet(c) && Finds(byNum, pulls)
    ensures Pick(byNum, SortNumbers(Numbers(Listed(c)))) == Listed(c)
  {
    ByNumberAscends(c);
    PickNumbers(byNum, ByNumber(c));
  }

  /** The path sets and the index of the retained groups. */
  method IndexRetained(attached: map<string, seq<PullRequest>>)
    returns (lists: map<string, seq<set<string>>>, index: map<string, set<string>>)
    ensures Indexed(attached, lists, index)
  {
    lists, index := map gid | gid in attached :: [], map[];
    var todo := attached.Keys;
    while todo != {}
      invariant todo <= attached.Keys && lists.Keys == attached.Keys && GroupIndex(index, lists)
      invariant forall gid | gid in attached ::
                  AsSet(lists[gid]) == if gid in todo then {} else SeqPathSets(attached[gid])
      decreases todo
    {
      var gid :| gid in todo;
      var sets := MemberPathSets(attached[gid]);
      lists, index := LearnSets(sets, gid, lists, index);
      todo := todo - {gid};
    }
  }

  lemma NothingAttached<T>(kept: map<string, seq<T>>, to: seq<Option<string>>, lists: seq<seq<T>>)
    requires |to| == |lists|
    ensures AttachedAfter(kept, to, lists, 0, kept)
  {}

  method PlaceClusters(ghost prs: seq<PullRequest>, ghost own: seq<Group>, ghost pulls: set<PullRequest>,
                       ghost cs: seq<set<PullRequest>>, ghost to: seq<Option<string>>,
                       byNum: map<int, PullRequest>, freshGroups: seq<Group>, kept: map<string, seq<PullRequest>>)
    returns (attached: map<string, seq<PullRequest>>, leftovers: seq<seq<PullRequest>>)
    requires KeptMap(prs, own, kept) && "" !in kept
    requires ClusterList(pulls, cs) && to == Destinations(Known(PullSet(prs), own), cs)
    requires |freshGroups| == |cs|
    requires forall k | 0 <= k < |cs| :: Pick(byNum, freshGroups[k].prNumbers) == Lists(cs)[k]
    ensures AttachedAfter(kept, to, Lists(cs), |cs|, attached)
    ensures leftovers == Leftovers(to, Lists(cs), |cs|)
  {
    hide KeptMap, ClusterList, Known, Destinations, Pick, Indexed, JoinedSeq;
    attached, leftovers := kept, [];
    var lists, index := IndexRetained(attached);
    NothingAttached(kept, to, Lists(cs));
    for k := 0 to |freshGroups|
      invariant AttachedAfter(kept, to, Lists(cs), k, attached) && Indexed(attached, lists, index)
      invariant leftovers == Leftovers(to, Lists(cs), k)
    {
      var members := Pick(byNum, freshGroups[k].prNumbers);
      assert cs[k] in cs;
      attached, lists, index, leftovers :=
        PlaceCluster(prs, own, pulls, kept, cs, to, k, members, attached, lists, index, leftovers);
    }
  }

  lemma FreshSeqIsFreshSet(prs: seq<PullRequest>, own: seq<Group>)
    requires DistinctNumbers(prs)
    ensures DistinctNumbers(FreshSeq(prs, |prs|, own))
    ensures PullSet(FreshSeq(prs, |prs|, own)) == FreshSet(PullSet(prs), own)
  {
    FreshSeqDistinct(prs, |prs|, own);
    FreshSeqElements(prs, |prs|, own);
    assert prs[..|prs|] == prs;
  }

  lemma KeptMapFrom(prs: seq<PullRequest>, own: seq<Group>, kept: map<string, seq<PullRequest>>)
    requires forall gid :: gid in kept <==> KeptSeq(prs, |prs|, own, gid) != []
    requires forall gid | gid in kept :: kept[gid] == KeptSeq(prs, |prs|, own, gid)
    ensures KeptMap(prs, own, kept)
  {
    assert prs[..|prs|] == prs;
    forall gid
      ensures gid in kept <==> gid in KeptIds(PullSet(prs), own)
    {
      KeptSeqElements(prs, |prs|, own, gid);
      if gid in kept {
        assert kept[gid][0] in kept[gid];
      }
    }
  }

  lemma KeptIdsNonBlank(r: Request, pulls: set<PullRequest>)
    requires r.Valid()
    ensures "" !in KeptIds(pulls, r.Own())
  {
    if "" in KeptIds(pulls, r.Own()) { KeptIdIsOwn(r, pulls, ""); }
  }

  lemma KeptIdIsTaken(r: Request, pulls: set<PullRequest>, gid: string)
    requires gid in KeptIds(pulls, r.Own())
    ensures gid in r.TakenIds()
  {
    KeptIdIsOwn(r, pulls, gid);
    var g :| g in r.existing && g.groupId == gid;
    var j :| 0 <= j < |r.existing| && r.existing[j] == g;
    assert r.TakenIds()[|SortedStrings(r.reserved)| + j] == gid;
  }

  lemma StartNumberOfUsed(r: Request, pulls: set<PullRequest>, kept: seq<string>)
    requires forall x | x in kept :: x in KeptIds(pulls, r.Own())
    ensures StartNumber(r.TakenIds() + kept, |r.TakenIds() + kept|) == r.Start()
  {
    forall x | x in kept
      ensures x in r.TakenIds()
    {
      KeptIdIsTaken(r, pulls, x);
    }
    StartNumberIgnoresRepeats(r.TakenIds(), kept, |kept|);
  }

  /** `attached` with the first `n` lists added under their new identities. */
  ghost function WithNew<T>(newIds: seq<string>, attached: map<string, T>, leftovers: seq<T>, n: nat): map<string, T>
    requires n <= |leftovers| == |newIds|
  {
    if n == 0 then attached else WithNew(newIds, attached, leftovers, n - 1)[newIds[n - 1] := leftovers[n - 1]]
  }

  lemma {:induction false} WithNewAt<T>(newIds: seq<string>, attached: map<string, T>, leftovers: seq<T>, n: nat,
                                        gid: string)
    requires n <= |leftovers| == |newIds|
    requires forall i, j | 0 <= i < j < |newIds| :: newIds[i] != newIds[j]
    requires forall i | 0 <= i < |newIds| :: newIds[i] !in attached
    ensures var m := WithNew(newIds, attached, leftovers, n);
            && (gid in m <==> gid in attached || gid in newIds[..n])
            && (gid in attached ==> m[gid] == attached[gid])
            && forall i | 0 <= i < n && newIds[i] == gid :: gid in m && m[gid] == leftovers[i]
  {
    if n > 0 {
      WithNewAt(newIds, attached, leftovers, n - 1, gid);
      assert newIds[..n] == newIds[..n - 1] + [newIds[n - 1]];
    }
  }

  /** `zip(new_ids, leftovers)` beside the attached groups. */
  method AddNewGroups<T>(attached: map<string, T>, leftovers: seq<T>, newIds: seq<string>) returns (all: map<string, T>)
    requires |newIds| == |leftovers|
    ensures all == WithNew(newIds, attached, leftovers, |leftovers|)
  {
    all := attached;
    for i := 0 to |leftovers|
      invariant all == WithNew(newIds, attached, leftovers, i)
    {
      all := all[newIds[i] := leftovers[i]];
    }
  }

  ghost predicate NamedBy(r: Request, newIds: seq<string>) {
    forall i | 0 <= i < |newIds| :: newIds[i] == NewId(r, i)
  }

  lemma NewIdsDiffer(r: Request, newIds: seq<string>)
    requires NamedBy(r, newIds)
    ensures forall i, j | 0 <= i < j < |newIds| :: newIds[i] != newIds[j]
    ensures forall gid :: gid in newIds <==> gid in NewIds(r, |newIds|)
  {
    forall i, j | 0 <= i < j < |newIds|
      ensures newIds[i] != newIds[j]
    {
      NumberOfGroupId(r.Start() + i);
      NumberOfGroupId(r.Start() + j);
    }
    forall gid | gid in NewIds(r, |newIds|)
      ensures gid in newIds
    {
      var i: nat :| i < |newIds| && NewId(r, i) == gid;
      assert newIds[i] == gid;
    }
  }

  lemma AssignedRetained(r: Request, prs: seq<PullRequest>, kept: map<string, seq<PullRequest>>,
                         attached: map<string, seq<PullRequest>>, gid: string)
    requires DistinctSet(PullSet(prs)) && KeptMap(prs, r.Own(), kept)
    requires AttachedAfter(kept, NewDestinations(r, PullSet(prs)), Lists(NewClusters(r, PullSet(prs))),
                           |NewClusters(r, PullSet(prs))|, attached)
    ensures gid in attached <==> gid in KeptIds(PullSet(prs), r.Own())
    ensures gid in attached ==> gid in AssignedMembers(r, prs) && AssignedMembers(r, prs)[gid] == attached[gid]
  {}

  lemma AssignedNew(r: Request, prs: seq<PullRequest>, newIds: seq<string>, i: nat)
    requires DistinctSet(PullSet(prs)) && i < |newIds| == |NewLists(r, PullSet(prs))| && NamedBy(r, newIds)
    ensures newIds[i] !in KeptIds(PullSet(prs), r.Own())
    ensures newIds[i] in AssignedMembers(r, prs) && AssignedMembers(r, prs)[newIds[i]] == NewLists(r, PullSet(prs))[i]
  {
    NewIdNotKept(r, PullSet(prs), i);
    NewListAt(r, NewLists(r, PullSet(prs)), i);
    assert newIds[i] == NewId(r, i);
  }

  lemma AllIsAssigned(r: Request, prs: seq<PullRequest>, kept: map<string, seq<PullRequest>>,
                      attached: map<string, seq<PullRequest>>, newIds: seq<string>)
    requires DistinctSet(PullSet(prs)) && KeptMap(prs, r.Own(), kept)
    requires AttachedAfter(kept, NewDestinations(r, PullSet(prs)), Lists(NewClusters(r, PullSet(prs))),
                           |NewClusters(r, PullSet(prs))|, attached)
    requires |newIds| == |NewLists(r, PullSet(prs))| && NamedBy(r, newIds)
    ensures WithNew(newIds, attached, NewLists(r, PullSet(prs)), |newIds|) == AssignedMembers(r, prs)
  {
    NewIdsDiffer(r, newIds);
    var m := AssignedMembers(r, prs);
    forall i | 0 <= i < |newIds|
      ensures newIds[i] !in attached && newIds[i] in m && m[newIds[i]] == NewLists(r, PullSet(prs))[i]
    {
      AssignedNew(r, prs, newIds, i);
      AssignedRetained(r, prs, kept, attached, newIds[i]);
    }
    forall gid
      ensures gid in attached ==> gid in m && m[gid] == attached[gid]
      ensures gid in m ==> gid in attached || gid in newIds
    {
      AssignedRetained(r, prs, kept, attached, gid);
    }
    WithNewIs(newIds, attached, NewLists(r, PullSet(prs)), m);
  }

  lemma WithNewIs<T>(newIds: seq<string>, attached: map<string, T>, leftovers: seq<T>, m: map<string, T>)
    requires |leftovers| == |newIds|
    requires forall i, j | 0 <= i < j < |newIds| :: newIds[i] != newIds[j]
    requires forall i | 0 <= i < |newIds| :: newIds[i] !in attached && newIds[i] in m && m[newIds[i]] == leftovers[i]
    requires forall gid | gid in attached :: gid in m && m[gid] == attached[gid]
    requires forall gid | gid in m :: gid in attached || gid in newIds
    ensures WithNew(newIds, attached, leftovers, |leftovers|) == m
  {
    forall gid
      ensures gid in WithNew(newIds, attached, leftovers, |leftovers|) <==> gid in m
      ensures gid in m ==> WithNew(newIds, attached, leftovers, |leftovers|)[gid] == m[gid]
    {
      WithNewAt(newIds, attached, leftovers, |leftovers|, gid);
      assert newIds[..|leftovers|] == newIds;
    }
  }

  method FreshClusters(prs: seq<PullRequest>, ghost r: Request, newPrs: seq<PullRequest>)
    returns (freshGroups: seq<Group>, byNum: map<int, PullRequest>)
    requires DistinctNumbers(prs) && DistinctSet(PullSet(prs)) && newPrs == FreshSeq(prs, |prs|, r.Own())
    ensures |freshGroups| == |NewClusters(r, PullSet(prs))|
    ensures forall k | 0 <= k < |freshGroups| ::
              Pick(byNum, freshGroups[k].prNumbers) == Lists(NewClusters(r, PullSet(prs)))[k]
  {
    byNum := map p | p in prs :: p.number := p;
    FreshSeqIsFreshSet(prs, r.Own());
    ghost var pulls := FreshSet(PullSet(prs), r.Own());
    assert Finds(byNum, pulls);
    freshGroups := ClusterPrs(newPrs);
    ClusterResultByValue(newPrs);
    forall k | 0 <= k < |freshGroups|
      ensures Pick(byNum, freshGroups[k].prNumbers) == Lists(Clusters(pulls))[k]
    {
      assert Clusters(pulls)[k] in Clusters(pulls);
      ComponentIsSubset(pulls, Clusters(pulls)[k]);
      ClusterMembers(byNum, pulls, Clusters(pulls)[k]);
    }
  }

  /** `assign_incremental`. */
  method AssignIncremental(prs: seq<PullRequest>, r: Request) returns (groups: seq<Group>)
    requires DistinctNumbers(prs) && r.Valid()
    ensures DistinctSet(PullSet(prs)) && SeparateMembers(AssignedMembers(r, prs))
    ensures groups == GroupsFor(AssignedMembers(r, prs), r.repo)
  {
    AssignedSeparate(r, prs);
    ghost var pulls := PullSet(prs);
    var own := OwnGroups(r.existing, r.repo);
    var kept, newPrs := SplitRetained(prs, own);
    KeptMapFrom(prs, own, kept);
    KeptIdsNonBlank(r, pulls);
    var freshGroups, byNum := FreshClusters(prs, r, newPrs);
    NewClustersList(r, pulls);
    var attached, leftovers := PlaceClusters(prs, own, FreshSet(pulls, own), NewClusters(r, pulls),
                                             NewDestinations(r, pulls), byNum, freshGroups, kept);
    var newIds := NameGroups(r, pulls, attached.Keys, |leftovers|);
    var all := AddNewGroups(attached, leftovers, newIds);
    AllIsAssigned(r, prs, kept, attached, newIds);
    groups := GroupsFor(all, r.repo);
  }

  method NameGroups(r: Request, ghost pulls: set<PullRequest>, attachedIds: set<string>,
                    n: nat) returns (newIds: seq<string>)
    requires attachedIds == KeptIds(pulls, r.Own())
    ensures |newIds| == n && NamedBy(r, newIds)
  {
    hide GroupId, StartNumber, KeptIds;
    var used := SortedStrings(r.reserved) + IdsOf(r.existing) + SortedStrings(attachedIds);
    StartNumberOfUsed(r, pulls, SortedStrings(attachedIds));
    newIds := NextGroupIds(used, n);
  }
}
