/** The work queue of triage/queue.py: every group in exactly one pile. */
module Queues {
  import opened Order
  import opened Models
  import opened Records
  import opened GroupEvidence
  import opened Active

  function Members(numbers: seq<int>): set<int> { set n | n in numbers }

  /** `rule_applies_to_group`. */
  predicate RuleApplies(rule: Rule, g: StoreGroup, repo: string) {
    var activeRepo := if repo != "" then repo else g.repo;
    && activeRepo != "" && g.repo == activeRepo && rule.repo == activeRepo && rule.groupId == g.groupId
    && SoundMembers(g.prNumbers)
    && DistinctInts(RevisionNumbers(rule.reviewedRevisions)) && DistinctInts(RevisionNumbers(g.memberRevisions))
    && NumberSet(rule.reviewedRevisions) == Members(g.prNumbers) && NumberSet(g.memberRevisions) == Members(g.prNumbers)
    && (forall n | n in rule.reviewedNumbers :: n > 0) && DistinctInts(rule.reviewedNumbers)
    && Members(rule.reviewedNumbers) == Members(g.prNumbers)
    && rule.digest == g.digest
    && (forall a, b | a in rule.reviewedRevisions && b in g.memberRevisions && a.prNumber == b.prNumber :: a == b)
    && (rule.verdict.Approved? ==>
          rule.evidenceComplete && g.evidenceComplete && AllComplete(rule.reviewedRevisions))
  }

  lemma RevisionOfNumber(revisions: seq<RevisionEvidence>, n: int) returns (r: RevisionEvidence)
    requires n in NumberSet(revisions)
    ensures r in revisions && r.prNumber == n
  {
    r :| r in revisions && r.prNumber == n;
  }

  /** A rule applies only to the very revisions that were reviewed: the same ones, one for each member. */
  lemma AppliedRuleReviewedAll(rule: Rule, g: StoreGroup, repo: string)
    requires RuleApplies(rule, g, repo)
    ensures forall r :: r in rule.reviewedRevisions <==> r in g.memberRevisions
    ensures forall n :: n in g.prNumbers <==> exists r :: r in g.memberRevisions && r.prNumber == n
    ensures rule.verdict.Approved? ==> AllComplete(g.memberRevisions)
  {
    var members := Members(g.prNumbers);
    forall r
      ensures r in rule.reviewedRevisions <==> r in g.memberRevisions
    {
      if r in rule.reviewedRevisions {
        assert r.prNumber in NumberSet(rule.reviewedRevisions);
        var b := RevisionOfNumber(g.memberRevisions, r.prNumber);
      }
      if r in g.memberRevisions {
        assert r.prNumber in NumberSet(g.memberRevisions);
        var a := RevisionOfNumber(rule.reviewedRevisions, r.prNumber);
      }
    }
    forall n
      ensures n in g.prNumbers <==> exists r :: r in g.memberRevisions && r.prNumber == n
    {
      assert n in g.prNumbers <==> n in members;
      assert n in NumberSet(g.memberRevisions) <==> exists r :: r in g.memberRevisions && r.prNumber == n;
    }
  }

  /** `numbers` is listed by these revisions, one for each. */
  ghost predicate OneEach(numbers: seq<int>, revisions: seq<RevisionEvidence>) {
    && (forall i, j | 0 <= i < j < |revisions| :: revisions[i].prNumber != revisions[j].prNumber)
    && forall n :: n in numbers <==> exists r :: r in revisions && r.prNumber == n
  }

  /**
   A rule applies exactly when it is about this group of this repository, and what was reviewed is what
   the group is bound to: the same members, the same revisions, one for each, and the same digest; an
   approval needs complete evidence besides.
   */
  lemma RuleAppliesIff(rule: Rule, g: StoreGroup, repo: string)
    ensures RuleApplies(rule, g, repo) <==>
            && g.repo != "" && (repo == "" || repo == g.repo) && rule.repo == g.repo && rule.groupId == g.groupId
            && g.prNumbers != [] && (forall n | n in g.prNumbers :: n > 0)
            && (forall i, j | 0 <= i < j < |g.prNumbers| :: g.prNumbers[i] != g.prNumbers[j])
            && (forall n :: n in rule.reviewedNumbers <==> n in g.prNumbers) && DistinctInts(rule.reviewedNumbers)
            && OneEach(g.prNumbers, g.memberRevisions) && OneEach(g.prNumbers, rule.reviewedRevisions)
            && (forall r :: r in rule.reviewedRevisions <==> r in g.memberRevisions) && rule.digest == g.digest
            && (rule.verdict.Approved? ==>
                  && rule.evidenceComplete && g.evidenceComplete
                  && forall r | r in g.memberRevisions :: r.evidenceComplete)
  {
    hide OneEach, DistinctInts;
    if RuleApplies(rule, g, repo) { AppliedRuleReviewedAll(rule, g, repo); }
    OneEachIff(g.prNumbers, g.memberRevisions);
    OneEachIff(g.prNumbers, rule.reviewedRevisions);
    SameMembers(rule.reviewedNumbers, g.prNumbers);
    Spelled(g.prNumbers);
    if (forall r :: r in rule.reviewedRevisions <==> r in g.memberRevisions)
      && DistinctInts(RevisionNumbers(g.memberRevisions)) {
      OneOfEachNumber(rule.reviewedRevisions, g.memberRevisions);
    }
  }

  lemma Spelled(s: seq<int>)
    ensures DistinctInts(s) <==> forall i, j | 0 <= i < j < |s| :: s[i] != s[j]
  {}

  lemma OneEachIff(numbers: seq<int>, revisions: seq<RevisionEvidence>)
    ensures OneEach(numbers, revisions) <==>
            DistinctInts(RevisionNumbers(revisions)) && NumberSet(revisions) == Members(numbers)
  {
    forall n
      ensures n in NumberSet(revisions) <==> exists r :: r in revisions && r.prNumber == n
      ensures n in Members(numbers) <==> n in numbers
    {}
    var ns := RevisionNumbers(revisions);
    assert forall i, j | 0 <= i < j < |ns| :: ns[i] != ns[j] <==> revisions[i].prNumber != revisions[j].prNumber;
    if OneEach(numbers, revisions) { assert NumberSet(revisions) == Members(numbers); }
    if NumberSet(revisions) == Members(numbers) && DistinctInts(ns) {
      forall i, j | 0 <= i < j < |revisions|
        ensures revisions[i].prNumber != revisions[j].prNumber
      {
        assert ns[i] != ns[j];
      }
    }
  }

  lemma SameMembers(a: seq<int>, b: seq<int>)
    ensures Members(a) == Members(b) <==> forall n :: n in a <==> n in b
  {
    assert forall n :: (n in Members(a) <==> n in a) && (n in Members(b) <==> n in b);
    if forall n :: n in a <==> n in b { assert Members(a) == Members(b); }
  }

  lemma OneOfEachNumber(a: seq<RevisionEvidence>, b: seq<RevisionEvidence>)
    requires DistinctInts(RevisionNumbers(b)) && forall r :: r in a <==> r in b
    ensures forall x, y | x in a && y in b && x.prNumber == y.prNumber :: x == y
  {
    forall x, y | x in a && y in b && x.prNumber == y.prNumber
      ensures x == y
    {
      var i :| 0 <= i < |b| && b[i] == x;
      var j :| 0 <= j < |b| && b[j] == y;
      assert RevisionNumbers(b)[i] == RevisionNumbers(b)[j];
    }
  }

  // ---- piles ----

  datatype Pile = Needs | Known | Junk | Hardware | ToUpgrade | Reviewed

  /** What the queue is computed from. */
  datatype View = View(repo: string, rules: seq<Rule>, local: map<int, Disposition>, current: Revisions)

  predicate Local(v: View, n: int) { n in v.local && n in v.current && SameRevision(v.local[n].revision, v.current[n]) }

  predicate Settled(v: View, n: int) { Local(v, n) && !v.local[n].kind.Pending? }

  /** The rule that `rule_by_gid` holds: the last one of the repository for the group. */
  function LastRule(rules: seq<Rule>, repo: string, gid: string): (r: Option<Rule>)
    ensures r.Some? ==> r.value in rules && r.value.repo == repo && r.value.groupId == gid
  {
    if rules == [] then None else
      var rule := rules[|rules| - 1];
      if rule.repo == repo && rule.groupId == gid then Some(rule) else LastRule(rules[..|rules| - 1], repo, gid)
  }

  function PileOf(v: View, g: StoreGroup): Pile {
    if exists n | n in g.prNumbers :: Local(v, n) then
      if forall n | n in g.prNumbers :: Settled(v, n) then Reviewed else Needs
    else
      var rule := LastRule(v.rules, v.repo, g.groupId);
      if rule.None? || !RuleApplies(rule.value, g, v.repo) then Needs
      else match rule.value.verdict
           case Approved => Known
           case Rejected => Junk
           case ForHardware => Hardware
           case ForUpgrade => ToUpgrade
  }

  /** The ids of the groups in one pile, in the order of the groups. */
  function IdsIn(v: View, groups: seq<StoreGroup>, pile: Pile): seq<string> {
    if groups == [] then [] else
      IdsIn(v, groups[..|groups| - 1], pile) +
      (if PileOf(v, groups[|groups| - 1]) == pile then [groups[|groups| - 1].groupId] else [])
  }

  function PilesOf(v: View, groups: seq<StoreGroup>): Piles {
    Piles(IdsIn(v, groups, Needs), IdsIn(v, groups, Known), IdsIn(v, groups, Junk),
          IdsIn(v, groups, Hardware), IdsIn(v, groups, ToUpgrade), IdsIn(v, groups, Reviewed))
  }

  function GroupIds(groups: seq<StoreGroup>): seq<string> {
    if groups == [] then [] else GroupIds(groups[..|groups| - 1]) + [groups[|groups| - 1].groupId]
  }

  function AllPiles(p: Piles): seq<string> { p.needs + p.known + p.junk + p.hardware + p.upgrade + p.reviewed }

  /** Every group lies in exactly one of the six piles. */
  lemma {:induction false} EachGroupInOnePile(v: View, groups: seq<StoreGroup>)
    ensures multiset(AllPiles(PilesOf(v, groups))) == multiset(GroupIds(groups))
  {
    hide PileOf;
    if groups != [] {
      var k := |groups| - 1;
      EachGroupInOnePile(v, groups[..k]);
      var p, q := PilesOf(v, groups[..k]), PilesOf(v, groups);
      AddedToOnePile(p, q, PileOf(v, groups[k]), groups[k].groupId);
    }
  }

  function Grown(ids: seq<string>, here: bool, id: string): seq<string> { ids + (if here then [id] else []) }

  lemma AddedToOnePile(p: Piles, q: Piles, pile: Pile, id: string)
    requires q.needs == Grown(p.needs, pile.Needs?, id) && q.known == Grown(p.known, pile.Known?, id)
    requires q.junk == Grown(p.junk, pile.Junk?, id) && q.hardware == Grown(p.hardware, pile.Hardware?, id)
    requires q.upgrade == Grown(p.upgrade, pile.ToUpgrade?, id) && q.reviewed == Grown(p.reviewed, pile.Reviewed?, id)
    ensures multiset(AllPiles(q)) == multiset(AllPiles(p)) + multiset{id}
  {}

  lemma {:induction false} InPile(v: View, groups: seq<StoreGroup>, pile: Pile, id: string)
    ensures id in IdsIn(v, groups, pile) <==> exists g :: g in groups && g.groupId == id && PileOf(v, g) == pile
  {
    hide PileOf;
    if groups != [] {
      var k := |groups| - 1;
      InPile(v, groups[..k], pile, id);
      assert groups == groups[..k] + [groups[k]];
    }
  }

  /** A group is known only through an approval of exactly its bound revisions, all complete, and no local row. */
  lemma KnownIsApproved(v: View, groups: seq<StoreGroup>, id: string) returns (g: StoreGroup, rule: Rule)
    requires id in PilesOf(v, groups).known
    ensures g in groups && g.groupId == id && PileOf(v, g).Known? && forall n | n in g.prNumbers :: !Local(v, n)
    ensures rule in v.rules && rule.verdict.Approved? && RuleApplies(rule, g, v.repo)
    ensures forall r :: r in rule.reviewedRevisions <==> r in g.memberRevisions
    ensures AllComplete(g.memberRevisions) && NumberSet(g.memberRevisions) == Members(g.prNumbers)
  {
    InPile(v, groups, Known, id);
    g :| g in groups && g.groupId == id && PileOf(v, g) == Known;
    rule := LastRule(v.rules, v.repo, g.groupId).value;
    AppliedRuleReviewedAll(rule, g, v.repo);
  }

  // ---- when a group is where ----

  /** The member has an active row about its current revision. */
  ghost predicate HasRow(v: View, n: int) {
    n in v.local && n in v.current && SameRevision(v.local[n].revision, v.current[n])
  }

  /** The member has such a row, and it is not pending. */
  ghost predicate HasDecision(v: View, n: int) { HasRow(v, n) && !v.local[n].kind.Pending? }

  /** A group is reviewed exactly when it has members and every one of them has a row that is not pending. */
  lemma ReviewedIff(v: View, groups: seq<StoreGroup>, id: string)
    ensures id in PilesOf(v, groups).reviewed <==>
            exists g :: g in groups && g.groupId == id && g.prNumbers != []
                        && forall n | n in g.prNumbers :: HasDecision(v, n)
  {
    hide HasRow, PileOf;
    InPile(v, groups, Reviewed, id);
    forall g | g in groups
      ensures PileOf(v, g) == Reviewed <==>
              g.prNumbers != [] && forall n | n in g.prNumbers :: HasDecision(v, n)
    {
      RowsDecide(v, g);
      MembersHaveRows(v, g);
    }
  }

  lemma MembersHaveRows(v: View, g: StoreGroup)
    ensures !Rowless(v, g) ==> g.prNumbers != []
    ensures g.prNumbers != [] && (forall n | n in g.prNumbers :: HasDecision(v, n)) ==> !Rowless(v, g)
  {
    if g.prNumbers != [] {
      var n := g.prNumbers[0];
      assert n in g.prNumbers && (HasDecision(v, n) ==> HasRow(v, n));
    }
  }

  lemma RowsDecide(v: View, g: StoreGroup)
    ensures (exists n | n in g.prNumbers :: Local(v, n)) <==> !Rowless(v, g)
    ensures (forall n | n in g.prNumbers :: Settled(v, n)) <==>
            forall n | n in g.prNumbers :: HasDecision(v, n)
    ensures PileOf(v, g) == Reviewed <==>
            !Rowless(v, g) && forall n | n in g.prNumbers :: HasDecision(v, n)
    ensures PileOf(v, g) == Needs <==>
            if Rowless(v, g) then
              || LastRule(v.rules, v.repo, g.groupId).None?
              || !RuleApplies(LastRule(v.rules, v.repo, g.groupId).value, g, v.repo)
            else exists n | n in g.prNumbers :: !HasDecision(v, n)
  {
    hide RuleApplies, LastRule, SameRevision;
    assert forall n :: Local(v, n) <==> HasRow(v, n);
    if !Rowless(v, g) {
      var n :| n in g.prNumbers && HasRow(v, n);
      assert Local(v, n);
    }
    assert forall n :: Settled(v, n) <==> HasDecision(v, n);
  }

  ghost predicate Rowless(v: View, g: StoreGroup) { forall n | n in g.prNumbers :: !HasRow(v, n) }

  /** The rule at this position is the last of the repository for the group, and it applies. */
  ghost predicate LastApplies(v: View, g: StoreGroup, i: nat) {
    && i < |v.rules| && v.rules[i].repo == v.repo && v.rules[i].groupId == g.groupId
    && (forall j | i < j < |v.rules| :: !(v.rules[j].repo == v.repo && v.rules[j].groupId == g.groupId))
    && RuleApplies(v.rules[i], g, v.repo)
  }

  lemma {:induction false} LastRuleAt(rules: seq<Rule>, repo: string, gid: string, i: nat)
    requires i < |rules| && rules[i].repo == repo && rules[i].groupId == gid
    requires forall j | i < j < |rules| :: !(rules[j].repo == repo && rules[j].groupId == gid)
    ensures LastRule(rules, repo, gid) == Some(rules[i])
  {
    if i < |rules| - 1 { LastRuleAt(rules[..|rules| - 1], repo, gid, i); }
  }

  lemma {:induction false} LastRuleHasPlace(rules: seq<Rule>, repo: string, gid: string) returns (i: nat)
    requires LastRule(rules, repo, gid).Some?
    ensures i < |rules| && rules[i].repo == repo && rules[i].groupId == gid
    ensures LastRule(rules, repo, gid) == Some(rules[i])
    ensures forall j | i < j < |rules| :: !(rules[j].repo == repo && rules[j].groupId == gid)
  {
    var n := |rules| - 1;
    if rules[n].repo == repo && rules[n].groupId == gid {
      i := n;
    } else {
      i := LastRuleHasPlace(rules[..n], repo, gid);
    }
  }

  function PileWith(p: Piles, verdict: Verdict): seq<string> {
    match verdict
    case Approved => p.known
    case Rejected => p.junk
    case ForHardware => p.hardware
    case ForUpgrade => p.upgrade
  }

  /** The last rule of the repository for the group applies, with this verdict. */
  ghost predicate RuledAs(v: View, g: StoreGroup, verdict: Verdict) {
    exists i: nat :: LastApplies(v, g, i) && v.rules[i].verdict == verdict
  }

  lemma RuledAsIff(v: View, g: StoreGroup, verdict: Verdict)
    ensures RuledAs(v, g, verdict) <==>
            var rule := LastRule(v.rules, v.repo, g.groupId);
            rule.Some? && RuleApplies(rule.value, g, v.repo) && rule.value.verdict == verdict
  {
    hide RuleApplies, LastRule;
    if i: nat :| LastApplies(v, g, i) && v.rules[i].verdict == verdict { LastRuleAt(v.rules, v.repo, g.groupId, i); }
    if LastRule(v.rules, v.repo, g.groupId).Some? {
      var i := LastRuleHasPlace(v.rules, v.repo, g.groupId);
      assert LastApplies(v, g, i) <==> RuleApplies(v.rules[i], g, v.repo);
    }
  }

  /** A group is in the pile of a verdict exactly when it has no rows and its last rule applies with that verdict. */
  lemma RuledIff(v: View, groups: seq<StoreGroup>, id: string, verdict: Verdict)
    ensures id in PileWith(PilesOf(v, groups), verdict) <==>
            exists g :: g in groups && g.groupId == id && Rowless(v, g) && RuledAs(v, g, verdict)
  {
    hide RuleApplies, LastRule, RuledAs;
    var pile: Pile;
    match verdict {
      case Approved => pile := Known;
      case Rejected => pile := Junk;
      case ForHardware => pile := Hardware;
      case ForUpgrade => pile := ToUpgrade;
    }
    InPile(v, groups, pile, id);
    forall g | g in groups
      ensures PileOf(v, g) == pile <==> Rowless(v, g) && RuledAs(v, g, verdict)
    {
      RuledAsIff(v, g, verdict);
    }
  }

  /**
   A group needs attention exactly when some member has a row and some has none or a pending one, or
   no member has one and the last rule for it does not apply.
   */
  lemma NeedsIff(v: View, groups: seq<StoreGroup>, id: string)
    ensures id in PilesOf(v, groups).needs <==>
            exists g :: g in groups && g.groupId == id
                        && if Rowless(v, g) then forall verdict :: !RuledAs(v, g, verdict)
                           else exists n | n in g.prNumbers :: !HasDecision(v, n)
  {
    hide RuleApplies, LastRule, RuledAs, HasRow, HasDecision, PileOf, Rowless;
    InPile(v, groups, Needs, id);
    forall g | g in groups
      ensures PileOf(v, g) == Needs <==>
              if Rowless(v, g) then forall verdict :: !RuledAs(v, g, verdict)
              else exists n | n in g.prNumbers :: !HasDecision(v, n)
    {
      RowsDecide(v, g);
      var last := LastRule(v.rules, v.repo, g.groupId);
      if last.Some? { RuledAsIff(v, g, last.value.verdict); }
      forall verdict
        ensures RuledAs(v, g, verdict) <==>
                var rule := LastRule(v.rules, v.repo, g.groupId);
                rule.Some? && RuleApplies(rule.value, g, v.repo) && rule.value.verdict == verdict
      {
        RuledAsIff(v, g, verdict);
      }
    }
  }

  // ---- the loops ----

  ghost predicate RulesById(rules: seq<Rule>, repo: string, byId: map<string, Rule>) {
    forall gid :: (if gid in byId then Some(byId[gid]) else None) == LastRule(rules, repo, gid)
  }

  method IndexRules(rules: seq<Rule>, repo: string) returns (byId: map<string, Rule>)
    ensures RulesById(rules, repo, byId)
  {
    byId := map[];
    for i := 0 to |rules|
      invariant RulesById(rules[..i], repo, byId)
    {
      assert rules[..i + 1][..i] == rules[..i];
      if rules[i].repo == repo {
        byId := byId[rules[i].groupId := rules[i]];
      }
    }
    assert rules[..|rules|] == rules;
  }

  /** The piles loop of `build_queue`. */
  method FillPiles(v: View, groups: seq<StoreGroup>) returns (piles: Piles)
    ensures piles == PilesOf(v, groups)
  {
    hide Local, RuleApplies, SameRevision;
    var byId := IndexRules(v.rules, v.repo);
    var needs, known, junk, hardware, upgrade, reviewed := [], [], [], [], [], [];
    for i := 0 to |groups|
      invariant Piles(needs, known, junk, hardware, upgrade, reviewed) == PilesOf(v, groups[..i])
    {
      var g := groups[i];
      assert groups[..i + 1][..i] == groups[..i];
      var pile := PlaceGroup(v, byId, g);
      match pile
      case Needs => needs := needs + [g.groupId];
      case Known => known := known + [g.groupId];
      case Junk => junk := junk + [g.groupId];
      case Hardware => hardware := hardware + [g.groupId];
      case ToUpgrade => upgrade := upgrade + [g.groupId];
      case Reviewed => reviewed := reviewed + [g.groupId];
    }
    assert groups[..|groups|] == groups;
    piles := Piles(needs, known, junk, hardware, upgrade, reviewed);
  }

  method PlaceGroup(v: View, byId: map<string, Rule>, g: StoreGroup) returns (pile: Pile)
    requires RulesById(v.rules, v.repo, byId)
    ensures pile == PileOf(v, g)
  {
    hide Local, RuleApplies, SameRevision;
    assert (if g.groupId in byId then Some(byId[g.groupId]) else None) == LastRule(v.rules, v.repo, g.groupId);
    var locals, pending := set n | n in g.prNumbers && Local(v, n), set n | n in g.prNumbers && !Settled(v, n);
    if locals != {} && pending == {} {
      assert forall n | n in g.prNumbers :: n !in pending;
      return Reviewed;
    }
    if locals != {} {
      assert exists n :: n in pending;
      return Needs;
    }
    assert forall n | n in g.prNumbers :: n !in locals;
    if g.groupId in byId && RuleApplies(byId[g.groupId], g, v.repo) {
      match byId[g.groupId].verdict
      case Approved => return Known;
      case Rejected => return Junk;
      case ForHardware => return Hardware;
      case ForUpgrade => return ToUpgrade;
    }
    pile := Needs;
  }

  function GroupRepos(groups: seq<StoreGroup>): set<string> { set g | g in groups && g.repo != "" :: g.repo }

  /** The repository of the queue: the given one, or the only one the groups record. */
  function QueueRepo(groups: seq<StoreGroup>, repo: string): string {
    if repo != "" then repo
    else if |GroupRepos(groups)| == 1 then SortedStrings(GroupRepos(groups))[0]
    else ""
  }

  /** A queue has a repository when one is given, or when the groups record one and no other. */
  lemma QueueRepoIff(groups: seq<StoreGroup>, given: string, repo: string)
    requires repo != ""
    ensures QueueRepo(groups, given) == repo <==>
            if given != "" then given == repo
            else (exists g | g in groups :: g.repo == repo) && forall g | g in groups :: g.repo in {"", repo}
  {
    var all := GroupRepos(groups);
    if given == "" && |all| == 1 {
      var x := SortedStrings(all)[0];
      assert x in SortedStrings(all);
      OnlyOne(all, x);
      assert forall g | g in groups && g.repo != "" :: g.repo in all;
    }
    if g :| g in groups && g.repo == repo && given == "" && forall g | g in groups :: g.repo in {"", repo} {
      assert all == {repo};
    }
  }

  lemma OnlyOne<T>(s: set<T>, x: T)
    requires |s| == 1 && x in s
    ensures s == {x}
  {
    assert |s - {x}| == 0;
  }

  ghost function ViewOf(groups: seq<StoreGroup>, rules: seq<Rule>, repo: string, rows: seq<Disposition>,
                        current: Revisions,
                        source: string): View
  {
    var active := QueueRepo(groups, repo);
    View(active, rules, ActiveOf(rows, current, active, source), current)
  }

  /** `build_queue`. */
  method BuildQueue(groups: seq<StoreGroup>, rules: seq<Rule>, repo: string, rows: seq<Disposition>,
                    current: Revisions, source: string)
    returns (piles: Piles)
    ensures piles == PilesOf(ViewOf(groups, rules, repo, rows, current, source), groups)
  {
    var active := QueueRepo(groups, repo);
    var local := ActiveDispositions(rows, current, active, source);
    piles := FillPiles(View(active, rules, local, current), groups);
  }
}
