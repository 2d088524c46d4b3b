/**
 What a second look at the same pull requests gives: the same groups in the same order
 for any input order, and no movement when nothing changed.
 */
module AssignStability {
  import opened Order
  import opened Models
  import opened ClusterByValue
  import opened Assign
  import opened Assignment

  // ---- groups of permuted members ----

  lemma LeastFirst(a: seq<int>, b: seq<int>)
    requires multiset(a) == multiset(b) && a != [] && b != []
    requires forall i, j | 0 <= i < j < |b| :: b[i] <= b[j]
    ensures b[0] <= a[0]
  {
    assert a[0] in multiset(b);
    var i :| 0 <= i < |b| && b[i] == a[0];
  }

  lemma Cancel<T>(x: multiset<T>, y: multiset<T>, z: multiset<T>)
    requires x + z == y + z
    ensures x == y
  {
    assert x == (x + z) - z;
    assert y == (y + z) - z;
  }

  lemma {:induction false} SortedUnique(a: seq<int>, b: seq<int>)
    requires multiset(a) == multiset(b)
    requires forall i, j | 0 <= i < j < |a| :: a[i] <= a[j]
    requires forall i, j | 0 <= i < j < |b| :: b[i] <= b[j]
    ensures a == b
  {
    assert |multiset(a)| == |multiset(b)|;
    if a != [] {
      LeastFirst(a, b);
      LeastFirst(b, a);
      assert a == [a[0]] + a[1..] && b == [b[0]] + b[1..];
      assert multiset(a) == multiset(a[1..]) + multiset{a[0]} && multiset(b) == multiset(b[1..]) + multiset{b[0]};
      Cancel(multiset(a[1..]), multiset(b[1..]), multiset{a[0]});
      SortedUnique(a[1..], b[1..]);
    }
  }

  lemma NumbersConcat(a: seq<PullRequest>, b: seq<PullRequest>)
    ensures Numbers(a + b) == Numbers(a) + Numbers(b)
  {}

  /** Taking out the member at position i takes out its number. */
  lemma NumbersWithout(s: seq<PullRequest>, i: nat)
    requires i < |s|
    ensures var rest := s[..i] + s[i + 1..];
            && multiset(s) == multiset(rest) + multiset{s[i]}
            && multiset(Numbers(s)) == multiset(Numbers(rest)) + multiset{s[i].number}
  {
    var head, tail := s[..i], s[i + 1..];
    assert s == head + ([s[i]] + tail);
    NumbersConcat(head, [s[i]] + tail);
    NumbersConcat([s[i]], tail);
    NumbersConcat(head, tail);
    assert Numbers([s[i]]) == [s[i].number];
  }

  lemma WithoutMember(s: seq<PullRequest>, p: PullRequest) returns (rest: seq<PullRequest>)
    requires p in s
    ensures |rest| == |s| - 1 && multiset(s) == multiset(rest) + multiset{p}
    ensures multiset(Numbers(s)) == multiset(Numbers(rest)) + multiset{p.number}
  {
    var i :| 0 <= i < |s| && s[i] == p;
    rest := s[..i] + s[i + 1..];
    NumbersWithout(s, i);
  }

  lemma {:induction false} NumbersMultiset(a: seq<PullRequest>, b: seq<PullRequest>)
    requires multiset(a) == multiset(b)
    ensures multiset(Numbers(a)) == multiset(Numbers(b))
    decreases |a|
  {
    hide Numbers;
    assert |multiset(a)| == |a| && |multiset(b)| == |b|;
    if a == [] {
      assert b == [];
    } else {
      assert a[0] in multiset(b);
      var a' := WithoutMember(a, a[0]);
      var b' := WithoutMember(b, a[0]);
      Cancel(multiset(a'), multiset(b'), multiset{a[0]});
      NumbersMultiset(a', b');
    }
  }

  /** A group's identity, repository, numbers, shared files and signature do not depend on member order. */
  ghost predicate SameShape(g: Group, h: Group) {
    && g.groupId == h.groupId && g.repo == h.repo && g.prNumbers == h.prNumbers
    && g.sharedFiles == h.sharedFiles && g.signature == h.signature
  }

  lemma PermutedMembersSameShape(gid: string, a: seq<PullRequest>, b: seq<PullRequest>)
    requires multiset(a) == multiset(b)
    ensures SameShape(BuildGroup(gid, a), BuildGroup(gid, b))
  {
    NumbersMultiset(a, b);
    SortNumbersSorts(Numbers(a));
    SortNumbersSorts(Numbers(b));
    SortedUnique(SortNumbers(Numbers(a)), SortNumbers(Numbers(b)));
    assert forall p :: p in a <==> p in multiset(a);
    assert forall p :: p in b <==> p in multiset(b);
    assert AllPaths(a) == AllPaths(b);
    if a == [] {
      assert |multiset(b)| == 0;
    } else {
      assert a[0] in b && |multiset(b)| > 0;
      forall p
        ensures p in SharedPaths(a) <==> p in SharedPaths(b)
      {
        assert a[0] in a && b[0] in b;
      }
      assert SharedPaths(a) == SharedPaths(b);
    }
  }

  lemma PermutedLeast(m: map<string, seq<PullRequest>>, m': map<string, seq<PullRequest>>, g: string)
    requires g in m && g in m' && multiset(m[g]) == multiset(m'[g])
    ensures LeastMember(m, g) == LeastMember(m', g)
  {
    assert forall p :: p in m[g] <==> p in multiset(m[g]);
    assert forall p :: p in m'[g] <==> p in multiset(m'[g]);
    assert (set p | p in m[g] :: p.number) == (set p | p in m'[g] :: p.number);
  }

  lemma PermutedListsSameOrder(m: map<string, seq<PullRequest>>, m': map<string, seq<PullRequest>>)
    requires SeparateMembers(m) && SeparateMembers(m') && m.Keys == m'.Keys
    requires forall g | g in m :: multiset(m[g]) == multiset(m'[g])
    ensures GroupOrder(m) == GroupOrder(m')
  {
    var order := GroupOrder(m);
    forall g | g in m ensures LeastMember(m, g) == LeastMember(m', g) { PermutedLeast(m, m', g); }
    forall i, j | 0 <= i < j < |order|
      ensures order[i] != order[j] && LeastMember(m', order[i]) <= LeastMember(m', order[j])
    {
      assert order[i] in order && order[j] in order;
    }
    GroupOrderTotal(m');
    OrderedUnique(m'.Keys, (g, h) => LeastMember(m', g) <= LeastMember(m', h), order);
  }

  /** Member lists that agree up to order give the same groups in the same order. */
  lemma PermutedListsSameGroups(m: map<string, seq<PullRequest>>, m': map<string, seq<PullRequest>>, repo: string)
    requires SeparateMembers(m) && SeparateMembers(m') && m.Keys == m'.Keys
    requires forall g | g in m :: multiset(m[g]) == multiset(m'[g])
    ensures |GroupsFor(m, repo)| == |GroupsFor(m', repo)|
    ensures forall i | 0 <= i < |GroupsFor(m, repo)| :: SameShape(GroupsFor(m, repo)[i], GroupsFor(m', repo)[i])
  {
    PermutedListsSameOrder(m, m');
    var order := GroupOrder(m);
    forall i | 0 <= i < |order|
      ensures SameShape(GroupAt(m, repo, order[i]), GroupAt(m', repo, order[i]))
    {
      assert order[i] in order;
      PermutedMembersSameShape(order[i], m[order[i]], m'[order[i]]);
    }
  }

  /** `assign_incremental` gives the same groups, in the same order, for every order of its input. */
  lemma AssignGroupsOrderIndependent(r: Request, prs: seq<PullRequest>, prs': seq<PullRequest>)
    requires DistinctNumbers(prs) && DistinctNumbers(prs') && multiset(prs) == multiset(prs')
    ensures DistinctSet(PullSet(prs)) && DistinctSet(PullSet(prs'))
    ensures var m, m' := AssignedMembers(r, prs), AssignedMembers(r, prs');
            && SeparateMembers(m) && SeparateMembers(m')
            && |GroupsFor(m, r.repo)| == |GroupsFor(m', r.repo)|
            && forall i | 0 <= i < |GroupsFor(m, r.repo)| ::
                 SameShape(GroupsFor(m, r.repo)[i], GroupsFor(m', r.repo)[i])
  {
    AssignedSeparate(r, prs);
    AssignedSeparate(r, prs');
    AssignOrderIndependent(r, prs, prs');
    PermutedListsSameGroups(AssignedMembers(r, prs), AssignedMembers(r, prs'), r.repo);
  }

  // ---- nothing changed, nobody moves ----

  function Evidences(members: seq<PullRequest>): (r: seq<RevisionEvidence>)
    ensures |r| == |members| && forall i | 0 <= i < |r| :: r[i] == members[i].evidence
  {
    seq(|members|, i requires 0 <= i < |members| => members[i].evidence)
  }

  /** `Group.bind_revisions`: each known member's evidence by ascending number, and its path list. */
  function Bind(g: Group, byNum: map<int, PullRequest>): Group {
    g.(memberRevisions := Evidences(Pick(byNum, SortNumbers(g.prNumbers))),
       pathSignatures := map n | n in g.prNumbers && n in byNum :: byNum[n].paths)
  }

  function BindAll(groups: seq<Group>, byNum: map<int, PullRequest>): (bound: seq<Group>)
    ensures |bound| == |groups| && forall i | 0 <= i < |bound| :: bound[i] == Bind(groups[i], byNum)
  {
    seq(|groups|, i requires 0 <= i < |groups| => Bind(groups[i], byNum))
  }

  lemma {:induction false} PickHasEvidence(byNum: map<int, PullRequest>, numbers: seq<int>, p: PullRequest)
    requires forall n | n in byNum :: byNum[n].number == n && byNum[n].evidence.prNumber == n
    requires p.number in byNum && byNum[p.number] == p && p.number in numbers
    ensures PriorRevision(Evidences(Pick(byNum, numbers)), p.number) == Some(p.evidence)
  {
    var rest := Pick(byNum, numbers[1..]);
    var e := Evidences(Pick(byNum, numbers));
    if numbers[0] in byNum {
      assert e == [byNum[numbers[0]].evidence] + Evidences(rest);
      assert e[1..] == Evidences(rest);
    } else {
      assert Pick(byNum, numbers) == rest;
    }
    if numbers[0] != p.number {
      PickHasEvidence(byNum, numbers[1..], p);
    }
  }

  lemma NumberIsListed(members: seq<PullRequest>, p: PullRequest)
    ensures p in members ==> p.number in SortNumbers(Numbers(members))
    ensures forall n | n in SortNumbers(Numbers(members)) :: exists q :: q in members && q.number == n
  {
    var s := Numbers(members);
    SortNumbersSorts(s);
    assert forall n :: n in SortNumbers(s) <==> n in multiset(SortNumbers(s));
    if p in members {
      var i :| 0 <= i < |members| && members[i] == p;
      assert s[i] == p.number;
    }
    forall n | n in SortNumbers(s)
      ensures exists q :: q in members && q.number == n
    {
      assert n in multiset(s);
      var i :| 0 <= i < |s| && s[i] == n;
      assert members[i] in members;
    }
  }

  /** The bound group keeps each of its members. */
  lemma BoundGroupKeeps(gid: string, repo: string, members: seq<PullRequest>, byNum: map<int, PullRequest>,
                        p: PullRequest)
    requires forall n | n in byNum :: byNum[n].number == n && byNum[n].evidence.prNumber == n
    requires p in members && p.number in byNum && byNum[p.number] == p
    ensures var g := Bind(BuildGroup(gid, members).(repo := repo), byNum);
            g.groupId == gid && p.number in g.prNumbers && Keeps(g, p)
  {
    NumberIsListed(members, p);
    var numbers := SortNumbers(Numbers(members));
    SortNumbersSorts(numbers);
    assert p.number in multiset(numbers) && p.number in multiset(SortNumbers(numbers));
    PickHasEvidence(byNum, SortNumbers(numbers), p);
  }

  /** The last group listing a number is the only one. */
  lemma {:induction false} OnlyListingGroup(own: seq<Group>, n: nat, i: nat, number: int)
    requires i < n <= |own| && number in own[i].prNumbers
    requires forall j | 0 <= j < |own| && number in own[j].prNumbers :: j == i
    ensures OldGroup(own, n, number) == Some(own[i])
  {
    if n - 1 != i { OnlyListingGroup(own, n - 1, i, number); }
  }

  lemma {:induction false} OwnGroupsOfOneRepo(groups: seq<Group>, repo: string)
    requires forall g | g in groups :: g.repo == repo
    ensures OwnGroups(groups, repo) == groups
  {
    if groups != [] {
      assert groups[0] in groups;
      OwnGroupsOfOneRepo(groups[1..], repo);
    }
  }

  /** The request of the next run: the bound groups of this one. */
  ghost predicate NextRun(r: Request, prs: seq<PullRequest>, byNum: map<int, PullRequest>, r': Request) {
    && DistinctSet(PullSet(prs)) && SeparateMembers(AssignedMembers(r, prs))
    && r'.repo == r.repo && r'.existing == BindAll(GroupsFor(AssignedMembers(r, prs), r.repo), byNum)
    && (forall p | p in prs :: p.number in byNum && byNum[p.number] == p)
    && (forall n | n in byNum :: byNum[n].number == n && byNum[n].evidence.prNumber == n)
  }

  lemma GroupListsMember(m: map<string, seq<PullRequest>>, repo: string, j: nat, n: int) returns (q: PullRequest)
    requires SeparateMembers(m) && j < |GroupsFor(m, repo)| && n in GroupsFor(m, repo)[j].prNumbers
    ensures j < |GroupOrder(m)| && GroupOrder(m)[j] in m && q in m[GroupOrder(m)[j]] && q.number == n
  {
    var gid := GroupOrder(m)[j];
    assert gid in GroupOrder(m);
    NumberIsListed(m[gid], m[gid][0]);
    q :| q in m[gid] && q.number == n;
  }

  /** Exactly one of the groups lists a member's number. */
  lemma OnlyGroupOf(m: map<string, seq<PullRequest>>, repo: string, gid: string, p: PullRequest) returns (i: nat)
    requires SeparateMembers(m) && gid in m && p in m[gid]
    ensures i < |GroupsFor(m, repo)| && GroupsFor(m, repo)[i] == GroupAt(m, repo, gid)
    ensures forall j | 0 <= j < |GroupsFor(m, repo)| && p.number in GroupsFor(m, repo)[j].prNumbers :: j == i
  {
    hide GroupAt;
    var order := GroupOrder(m);
    assert gid in order;
    i :| 0 <= i < |order| && order[i] == gid;
    forall j | 0 <= j < |order| && p.number in GroupsFor(m, repo)[j].prNumbers
      ensures j == i
    {
      var q := GroupListsMember(m, repo, j, p.number);
    }
  }

  ghost predicate OwnOrFree(r: Request, gid: string) {
    || (exists g :: g in r.existing && g.repo == r.repo && g.groupId == gid)
    || (gid !in r.reserved && forall g | g in r.existing :: g.groupId != gid)
  }

  lemma GroupAtOf(m: map<string, seq<PullRequest>>, repo: string, gid: string)
    requires gid in m && m[gid] != [] && DistinctNumbers(m[gid])
    ensures var g := GroupAt(m, repo, gid);
            g.groupId == gid && g.repo == repo && g.prNumbers != [] && Ascends(g.prNumbers)
    ensures forall n :: n in GroupAt(m, repo, gid).prNumbers <==> exists p :: p in m[gid] && p.number == n
  {
    var numbers := Numbers(m[gid]);
    SortNumbersAscends(numbers);
    NumberIsListed(m[gid], m[gid][0]);
    assert numbers[0] in numbers;
    forall p | p in m[gid] ensures p.number in SortNumbers(numbers) { NumberIsListed(m[gid], p); }
  }

  /** Listed by one group and by no other. */
  ghost predicate InOneGroup(groups: seq<Group>, n: int) {
    exists i :: 0 <= i < |groups| && n in groups[i].prNumbers
      && forall j | 0 <= j < |groups| && n in groups[j].prNumbers :: j == i
  }

  /** A group of the repository under an own or a free id, with members from the input, each listed once. */
  ghost predicate GoodGroup(r: Request, prs: seq<PullRequest>, g: Group) {
    && g.repo == r.repo && OwnOrFree(r, g.groupId) && g.prNumbers != [] && Ascends(g.prNumbers)
    && forall n | n in g.prNumbers :: exists p :: p in prs && p.number == n
  }

  /**
   The returned groups: different ids, each an own existing one or a free one; no group is empty
   or lists a number twice; every input number is in exactly one group, and nothing else is.
   */
  lemma AssignedGroupsPartition(r: Request, prs: seq<PullRequest>)
    requires DistinctNumbers(prs)
    ensures DistinctSet(PullSet(prs)) && SeparateMembers(AssignedMembers(r, prs))
    ensures var groups := GroupsFor(AssignedMembers(r, prs), r.repo);
            && (forall i, j | 0 <= i < j < |groups| :: groups[i].groupId != groups[j].groupId)
            && (forall g | g in groups :: GoodGroup(r, prs, g))
            && forall p | p in prs :: InOneGroup(groups, p.number)
  {
    hide GroupAt, DistinctNumbers, SeparateMembers, DistinctSet, AssignedMembers, GoodGroup, InOneGroup, Partitions;
    AssignedSeparate(r, prs);
    AssignPartitions(r, prs);
    var m := AssignedMembers(r, prs);
    var order, groups := GroupOrder(m), GroupsFor(m, r.repo);
    forall i | 0 <= i < |order|
      ensures groups[i].groupId == order[i] && GoodGroup(r, prs, groups[i])
    {
      assert order[i] in order;
      GroupIsGood(r, prs, order[i]);
    }
    EachInOneGroup(m, r.repo, prs);
  }

  lemma EachInOneGroup(m: map<string, seq<PullRequest>>, repo: string, prs: seq<PullRequest>)
    requires SeparateMembers(m) && Partitions(m, prs)
    ensures forall p | p in prs :: InOneGroup(GroupsFor(m, repo), p.number)
  {
    hide GroupAt, DistinctNumbers, SeparateMembers, GroupsFor, Ascends;
    forall p | p in prs
      ensures InOneGroup(GroupsFor(m, repo), p.number)
    {
      var gid :| gid in m && p in m[gid];
      var i := OnlyGroupOf(m, repo, gid, p);
      GroupAtOf(m, repo, gid);
    }
  }

  lemma GroupIsGood(r: Request, prs: seq<PullRequest>, gid: string)
    requires DistinctNumbers(prs) && DistinctSet(PullSet(prs)) && Partitions(AssignedMembers(r, prs), prs)
    requires gid in AssignedMembers(r, prs)
    ensures var g := GroupAt(AssignedMembers(r, prs), r.repo, gid); g.groupId == gid && GoodGroup(r, prs, g)
  {
    hide GroupAt, DistinctNumbers, DistinctSet, AssignedMembers, OwnOrFree, Ascends;
    GroupAtOf(AssignedMembers(r, prs), r.repo, gid);
    IsOwnOrFree(r, prs, gid);
  }

  lemma IsOwnOrFree(r: Request, prs: seq<PullRequest>, gid: string)
    requires DistinctSet(PullSet(prs)) && gid in AssignedMembers(r, prs)
    ensures OwnOrFree(r, gid)
  {
    AssignedIdentities(r, prs, gid);
  }

  lemma BoundRetention(groups: seq<Group>, byNum: map<int, PullRequest>, repo: string, i: nat, p: PullRequest)
    requires forall g | g in groups :: g.repo == repo
    requires i < |groups| && forall j | 0 <= j < |groups| && p.number in groups[j].prNumbers :: j == i
    requires p.number in groups[i].prNumbers && Keeps(Bind(groups[i], byNum), p)
    ensures Retention(OwnGroups(BindAll(groups, byNum), repo), p) == Some(groups[i].groupId)
  {
    var bound := BindAll(groups, byNum);
    forall g | g in bound
      ensures g.repo == repo
    {
      var j :| 0 <= j < |bound| && bound[j] == g;
      assert groups[j] in groups;
    }
    OwnGroupsOfOneRepo(bound, repo);
    OnlyListingGroup(bound, |bound|, i, p.number);
  }

  lemma GroupsShareRepo(m: map<string, seq<PullRequest>>, repo: string)
    requires SeparateMembers(m)
    ensures forall g | g in GroupsFor(m, repo) :: g.repo == repo
  {}

  lemma MemberKeeps(m: map<string, seq<PullRequest>>, repo: string, byNum: map<int, PullRequest>, gid: string,
                    p: PullRequest)
    requires gid in m && p in m[gid] && p.number in byNum && byNum[p.number] == p
    requires forall n | n in byNum :: byNum[n].number == n && byNum[n].evidence.prNumber == n
    ensures var g := GroupAt(m, repo, gid); g.groupId == gid && p.number in g.prNumbers && Keeps(Bind(g, byNum), p)
  {
    BoundGroupKeeps(gid, repo, m[gid], byNum, p);
  }

  lemma MemberStays(m: map<string, seq<PullRequest>>, repo: string, byNum: map<int, PullRequest>, gid: string,
                    p: PullRequest)
    requires SeparateMembers(m) && gid in m && p in m[gid] && p.number in byNum && byNum[p.number] == p
    requires forall n | n in byNum :: byNum[n].number == n && byNum[n].evidence.prNumber == n
    ensures Retention(OwnGroups(BindAll(GroupsFor(m, repo), byNum), repo), p) == Some(gid)
  {
    var i := OnlyGroupOf(m, repo, gid, p);
    MemberKeeps(m, repo, byNum, gid, p);
    GroupsShareRepo(m, repo);
    BoundRetention(GroupsFor(m, repo), byNum, repo, i, p);
  }

  lemma NextRunRetains(r: Request, prs: seq<PullRequest>, byNum: map<int, PullRequest>, r': Request, p: PullRequest)
    requires DistinctNumbers(prs) && NextRun(r, prs, byNum, r') && p in prs
    ensures Retention(r'.Own(), p) == Some(Home(r, PullSet(prs), p))
  {
    var gid := Home(r, PullSet(prs), p);
    HomeExists(r, prs, p);
    MembersAreAtHome(r, prs, gid, p);
    MemberStays(AssignedMembers(r, prs), r.repo, byNum, gid, p);
  }

  /** Assigning unchanged pull requests again, against the bound groups, moves nobody. */
  lemma NothingMoves(r: Request, prs: seq<PullRequest>, byNum: map<int, PullRequest>, r': Request, g: string)
    requires DistinctNumbers(prs) && NextRun(r, prs, byNum, r')
    ensures g in AssignedMembers(r', prs) <==> g in AssignedMembers(r, prs)
    ensures g in AssignedMembers(r, prs) ==>
              forall p :: p in AssignedMembers(r', prs)[g] <==> p in AssignedMembers(r, prs)[g]
  {
    forall p | p in prs
      ensures Home(r', PullSet(prs), p) == Home(r, PullSet(prs), p)
    {
      NextRunRetains(r, prs, byNum, r', p);
    }
    if g in AssignedMembers(r, prs) { MemberSharesKey(r, r', prs, g); }
    if g in AssignedMembers(r', prs) { MemberSharesKey(r', r, prs, g); }
    if g in AssignedMembers(r, prs) {
      forall p
        ensures p in AssignedMembers(r', prs)[g] <==> p in AssignedMembers(r, prs)[g]
      {
        MembersAreAtHome(r, prs, g, p);
        MembersAreAtHome(r', prs, g, p);
      }
    }
  }

  lemma MemberSharesKey(r: Request, r': Request, prs: seq<PullRequest>, g: string)
    requires DistinctNumbers(prs) && DistinctSet(PullSet(prs)) && g in AssignedMembers(r, prs)
    requires forall p | p in prs :: Home(r', PullSet(prs), p) == Home(r, PullSet(prs), p)
    ensures g in AssignedMembers(r', prs)
  {
    MembersNonEmpty(r, prs, g);
    var p := AssignedMembers(r, prs)[g][0];
    MembersAreAtHome(r, prs, g, p);
    HomeExists(r', prs, p);
  }
}
