/**
 From publication to decision and queue: a group bound to the evidence of its rows can be
 decided, and the decision moves exactly that group to its pile.
 */
module Decisions {
  import opened Models
  import opened Records
  import opened GroupEvidence
  import opened Active
  import opened Queues
  import opened Stores
  import opened StoreRuns
  import opened StoreSafety

  // ---- binding ----

  function Revisions(evidence: map<int, RevisionEvidence>, numbers: seq<int>): seq<RevisionEvidence> {
    if numbers == [] then [] else
      (if numbers[0] in evidence then [evidence[numbers[0]]] else []) + Revisions(evidence, numbers[1..])
  }

  /** `Group.bind_revisions`, for members listed once. */
  function BindRevisions(g: StoreGroup, evidence: map<int, RevisionEvidence>): StoreGroup {
    var revisions := Revisions(evidence, SortNumbers(g.prNumbers));
    g.(memberRevisions := revisions, digest := Digest(revisions),
       evidenceComplete := g.prNumbers != [] && |revisions| == |g.prNumbers| && AllComplete(revisions))
  }

  /** `r` is the evidence of one of the numbers. */
  ghost predicate EvidenceOf(evidence: map<int, RevisionEvidence>, numbers: seq<int>, r: RevisionEvidence) {
    exists n :: n in numbers && n in evidence && r == evidence[n]
  }

  lemma {:induction false} AllFound(evidence: map<int, RevisionEvidence>, numbers: seq<int>)
    ensures |Revisions(evidence, numbers)| <= |numbers|
    ensures |Revisions(evidence, numbers)| == |numbers| <==> forall n | n in numbers :: n in evidence
    ensures forall r :: r in Revisions(evidence, numbers) <==> EvidenceOf(evidence, numbers, r)
  {
    if numbers != [] {
      var first, rest := numbers[0], numbers[1..];
      AllFound(evidence, rest);
      assert forall n :: n in numbers <==> n == first || n in rest by { assert numbers == [first] + rest; }
      forall r
        ensures r in Revisions(evidence, numbers) <==> EvidenceOf(evidence, numbers, r)
      {
        assert EvidenceOf(evidence, numbers, r) <==>
               (first in evidence && r == evidence[first]) || EvidenceOf(evidence, rest, r);
      }
    }
  }

  /** Binding lists the evidence of the members, and is complete when there are some and each has complete evidence. */
  lemma BindingIs(g: StoreGroup, evidence: map<int, RevisionEvidence>)
    ensures var b := BindRevisions(g, evidence);
            && (forall r :: r in b.memberRevisions <==> EvidenceOf(evidence, g.prNumbers, r))
            && (b.evidenceComplete <==>
                  g.prNumbers != [] && forall n | n in g.prNumbers :: n in evidence && evidence[n].evidenceComplete)
            && b.digest == Digest(b.memberRevisions)
            && b.groupId == g.groupId && b.repo == g.repo && b.prNumbers == g.prNumbers
  {
    hide Revisions, Digest, SortNumbers;
    AllFound(evidence, SortNumbers(g.prNumbers));
    SortedNumbersAreMembers(g.prNumbers);
    forall n | n in g.prNumbers && n in evidence
      ensures evidence[n] in BindRevisions(g, evidence).memberRevisions
    {}
  }

  /** The store holds one row for each member, with the evidence the group was bound to. */
  ghost predicate RowsHold(s: Store, numbers: seq<int>, evidence: map<int, RevisionEvidence>) {
    forall n | n in numbers ::
      && n in evidence && evidence[n].prNumber == n && evidence[n].contentDigest != ""
      && evidence[n].source == SourceKey(s.source)
      && |RowsOf(s.prs, n)| == 1 && RowsOf(s.prs, n)[0].recorded == evidence[n]
  }

  /** Reading the pinned evidence gives what was recorded, where that is complete. */
  ghost predicate ReadsBack(reader: Reader) {
    forall row: PrRow {:trigger reader(row)} ::
      reader(row) == if row.recorded.evidenceComplete then Read(row.recorded) else Unavailable
  }

  lemma RecaptureIsRecorded(s: Store, row: PrRow, reader: Reader)
    requires ReadsBack(reader) && row.recorded.prNumber == row.number && row.recorded.contentDigest != ""
    requires row.recorded.source == SourceKey(s.source)
    ensures Recapture(s.source, row, reader) == Done(row.recorded)
  {}

  lemma {:induction false} RecapturedIsBound(s: Store, numbers: seq<int>, evidence: map<int, RevisionEvidence>,
                                             reader: Reader)
    requires RowsHold(s, numbers, evidence) && ReadsBack(reader)
    ensures RecaptureAll(s.source, s.prs, numbers, reader) == Done(Revisions(evidence, numbers))
  {
    hide Recapture, ReadsBack, RowsOf;
    if numbers != [] {
      var row := RowsOf(s.prs, numbers[0])[0];
      RowsOfNumber(s.prs, numbers[0]);
      assert row in RowsOf(s.prs, numbers[0]);
      RecaptureIsRecorded(s, row, reader);
      RecapturedIsBound(s, numbers[1..], evidence, reader);
    }
  }

  lemma {:induction false} RevisionsOfAll(evidence: map<int, RevisionEvidence>, numbers: seq<int>)
    requires forall n | n in numbers :: n in evidence && evidence[n].prNumber == n
    ensures RevisionNumbers(Revisions(evidence, numbers)) == numbers
    ensures forall r | r in Revisions(evidence, numbers) :: r.prNumber in evidence && r == evidence[r.prNumber]
  {
    if numbers != [] {
      var n := numbers[0];
      assert n in numbers && n in evidence;
      RevisionsOfAll(evidence, numbers[1..]);
      var rest := Revisions(evidence, numbers[1..]);
      assert RevisionNumbers([evidence[n]] + rest) == [n] + RevisionNumbers(rest);
    }
  }

  lemma SortedStayDistinct(numbers: seq<int>)
    requires DistinctInts(numbers)
    ensures DistinctInts(SortNumbers(numbers))
  {
    SortNumbersAscends(numbers);
  }

  lemma BoundToItself(g: StoreGroup, evidence: map<int, RevisionEvidence>)
    requires SoundMembers(g.prNumbers)
    requires forall n | n in g.prNumbers :: n in evidence && evidence[n].prNumber == n
    ensures var b := BindRevisions(g, evidence); BoundTo(b, b.memberRevisions) && b.memberRevisions != []
  {
    hide SortNumbers, Digest;
    SortedNumbersAreMembers(g.prNumbers);
    SortedStayDistinct(g.prNumbers);
    RevisionsOfAll(evidence, SortNumbers(g.prNumbers));
  }

  /** A published group whose rows hold its evidence passes verification, complete exactly as it was bound. */
  lemma BoundGroupVerifies(s: Store, gid: string, g: StoreGroup, evidence: map<int, RevisionEvidence>, reader: Reader)
    requires SoundMembers(g.prNumbers) && RowsHold(s, g.prNumbers, evidence) && ReadsBack(reader)
    requires MatchingGroups(GroupsIn(s, s.repo), gid) == [BindRevisions(g, evidence)]
    ensures var b := BindRevisions(g, evidence);
            VerifyGroup(s, gid, reader) == Done(Verified(b, b.memberRevisions, b.evidenceComplete))
  {
    hide BoundTo, Digest, Revisions, SoundMembers, RecaptureAll, RowsOf, AllComplete, GroupsIn, MatchingGroups;
    var b := BindRevisions(g, evidence);
    var numbers := SortNumbers(g.prNumbers);
    SortedNumbersAreMembers(g.prNumbers);
    assert RowsHold(s, numbers, evidence);
    RecapturedIsBound(s, numbers, evidence, reader);
    BoundToItself(g, evidence);
    SizesAgree(g, evidence);
  }

  lemma SizesAgree(g: StoreGroup, evidence: map<int, RevisionEvidence>)
    requires forall n | n in g.prNumbers :: n in evidence && evidence[n].prNumber == n
    ensures |BindRevisions(g, evidence).memberRevisions| == |g.prNumbers|
  {
    SortedNumbersAreMembers(g.prNumbers);
    RevisionsOfAll(evidence, SortNumbers(g.prNumbers));
  }

  // ---- the decision takes effect ----

  ghost predicate OneRuleEach(rules: seq<Rule>) {
    forall i, j | 0 <= i < j < |rules| :: !(rules[i].groupId == rules[j].groupId && rules[i].repo == rules[j].repo)
  }

  lemma {:induction false} UpsertedOnce(rules: seq<Rule>, rule: Rule)
    requires OneRuleEach(rules)
    ensures OneRuleEach(Upserted(rules, rule))
    ensures forall x | x in Upserted(rules, rule) && x.groupId == rule.groupId && x.repo == rule.repo :: x == rule
  {
    if rules != [] {
      UpsertedOnce(rules[1..], rule);
      UpsertedMembers(rules[1..], rule);
      var after := Upserted(rules, rule);
      if rules[0].groupId == rule.groupId && rules[0].repo == rule.repo {
        forall i | 0 < i < |after|
          ensures !(after[i].groupId == rule.groupId && after[i].repo == rule.repo)
        {
          assert after[i] == rules[i];
        }
      } else {
        var rest := Upserted(rules[1..], rule);
        forall i | 0 <= i < |rest|
          ensures !(rest[i].groupId == rules[0].groupId && rest[i].repo == rules[0].repo)
        {
          assert rest[i] in rest;
          if rest[i] != rule {
            var k :| 0 <= k < |rules[1..]| && rules[1..][k] == rest[i];
            assert rules[k + 1] == rest[i];
          }
        }
      }
    }
  }

  lemma {:induction false} RulesForMembers(rules: seq<Rule>, repo: string)
    ensures forall x :: x in RulesFor(rules, repo) <==> x in rules && x.repo == repo
  {
    if rules != [] { RulesForMembers(rules[1..], repo); }
  }

  lemma {:induction false} LastRuleIsOnly(rules: seq<Rule>, repo: string, rule: Rule)
    requires rule in rules && rule.repo == repo
    requires forall x | x in rules && x.groupId == rule.groupId && x.repo == repo :: x == rule
    ensures LastRule(rules, repo, rule.groupId) == Some(rule)
  {
    var n := |rules| - 1;
    assert rules == rules[..n] + [rules[n]];
    if rules[n] != rule { LastRuleIsOnly(rules[..n], repo, rule); }
  }

  /** Every bound revision names the evidence snapshot that its row records, and the store's source. */
  ghost predicate Pinned(s: Store, g: StoreGroup) {
    forall b | b in g.memberRevisions ::
      && RowsOf(s.prs, b.prNumber) != [] && b.cacheSnapshotId == RowsOf(s.prs, b.prNumber)[0].recorded.cacheSnapshotId
      && b.source == SourceKey(s.source)
  }

  /** What a decision records as the revisions of a group comes from the rows, whatever the group is bound to. */
  lemma {:induction false} RecapturedFromRows(source: string, prs: seq<PrRow>, numbers: seq<int>, reader: Reader)
    requires forall n | n in numbers :: RowsOf(prs, n) != []
    requires RecaptureAll(source, prs, numbers, reader).Done?
    ensures forall r | r in RecaptureAll(source, prs, numbers, reader).value ::
              && RowsOf(prs, r.prNumber) != []
              && r.cacheSnapshotId == RowsOf(prs, r.prNumber)[0].recorded.cacheSnapshotId
              && r.source == SourceKey(source)
  {
    hide RowsOf;
    if numbers != [] {
      RowsOfNumber(prs, numbers[0]);
      RecapturedFromRows(source, prs, numbers[1..], reader);
    }
  }

  lemma VerifiedFromRows(s: Store, gid: string, reader: Reader)
    requires VerifyGroup(s, gid, reader).Done?
    ensures forall r | r in VerifyGroup(s, gid, reader).value.revisions ::
              && RowsOf(s.prs, r.prNumber) != []
              && r.cacheSnapshotId == RowsOf(s.prs, r.prNumber)[0].recorded.cacheSnapshotId
              && r.source == SourceKey(s.source)
  {
    hide BoundTo, Digest, RecaptureAll, RowsOf;
    var g := MatchingGroups(GroupsIn(s, s.repo), gid)[0];
    SortedNumbersAreMembers(g.prNumbers);
    RecapturedFromRows(s.source, s.prs, SortNumbers(g.prNumbers), reader);
  }

  /** The recorded revisions are the bound ones exactly when the group is pinned. */
  lemma PinnedMeansSame(s: Store, g: StoreGroup, revisions: seq<RevisionEvidence>)
    requires BoundTo(g, revisions)
    requires forall r | r in revisions ::
               && RowsOf(s.prs, r.prNumber) != []
               && r.cacheSnapshotId == RowsOf(s.prs, r.prNumber)[0].recorded.cacheSnapshotId
               && r.source == SourceKey(s.source)
    ensures Pinned(s, g) <==>
              forall a, b | a in revisions && b in g.memberRevisions && a.prNumber == b.prNumber :: a == b
  {
    hide RowsOf, SourceKey;
    forall b | b in g.memberRevisions
      ensures exists a :: a in revisions && a.prNumber == b.prNumber
    {
      assert b.prNumber in NumberSet(g.memberRevisions);
      var a := RevisionOfNumber(revisions, b.prNumber);
    }
    if Pinned(s, g) {
      forall a, b | a in revisions && b in g.memberRevisions && a.prNumber == b.prNumber
        ensures a == b
      {
        assert SameBinding(b, a);
      }
    }
  }

  /** A decision on a verified group applies to that group exactly when it recorded the bound revisions. */
  lemma DecisionAppliesIff(s: Store, call: DecideCall, v: Verified, id: string)
    requires s.repo != "" && v.group.repo == s.repo && v.group.groupId == call.groupId
             && SoundMembers(v.group.prNumbers)
    requires BoundTo(v.group, v.revisions) && Digest(v.revisions) == v.group.digest
    requires DistinctInts(RevisionNumbers(v.revisions)) && NumberSet(v.revisions) == Members(v.group.prNumbers)
    requires v.complete == (v.group.evidenceComplete && AllComplete(v.revisions))
             && (call.verdict.Approved? ==> v.complete)
    ensures RuleApplies(RuleFor(s, call, v, id), v.group, s.repo) <==>
              forall a, b | a in v.revisions && b in v.group.memberRevisions && a.prNumber == b.prNumber :: a == b
  {
    hide Digest, FreeRuleId, AllComplete, SameBinding;
  }

  function PileFor(verdict: Verdict): Pile {
    match verdict case Approved => Known case Rejected => Junk case ForHardware => Hardware case ForUpgrade => ToUpgrade
  }

  lemma NumbersAreMembers(v: Verified)
    requires RevisionNumbers(v.revisions) == SortNumbers(v.group.prNumbers)
    ensures NumberSet(v.revisions) == Members(v.group.prNumbers)
  {
    SortedNumbersAreMembers(v.group.prNumbers);
    forall n
      ensures n in NumberSet(v.revisions) <==> n in Members(v.group.prNumbers)
    {
      if n in NumberSet(v.revisions) {
        var r := RevisionOfNumber(v.revisions, n);
        var i :| 0 <= i < |v.revisions| && v.revisions[i] == r;
        assert RevisionNumbers(v.revisions)[i] == n;
      }
      if n in Members(v.group.prNumbers) {
        var i :| 0 <= i < |SortNumbers(v.group.prNumbers)| && SortNumbers(v.group.prNumbers)[i] == n;
        assert v.revisions[i].prNumber == n;
      }
    }
  }

  // ---- what every reachable store knows about its groups and rules ----

  /**
   One rule for each group, groups filed under their repository, and the active groups are those
   of the repository.
   */
  ghost predicate QueueSound(s: Store) {
    && OneRuleEach(s.rules)
    && (forall r, g | r in s.groupsByRepo && g in s.groupsByRepo[r] :: g.repo == r)
    && (s.repo != "" ==> GroupsIn(s, s.repo) == s.groups)
  }

  lemma PublishKeepsQueueSound(s: Store, p: Publication, e: Expect)
    requires QueueSound(s) && Publish(s, p, e).Committed?
    ensures QueueSound(Publish(s, p, e).store)
  {
    hide ValidStore, OneRuleEach;
  }

  lemma StepKeepsQueueSound(s: Store, c: Command)
    requires QueueSound(s)
    ensures QueueSound(Step(s, c))
  {
    hide Publish, SaveDispositions, DraftProposal, TransitionProposal, Decide, FileReviews.WriteFile, QueueOf, Applied,
         Upserted, Replaced, AcceptItems, TransitionRows, OneRuleEach;
    match c
    case DoPublish(p, e) =>
      if Publish(s, p, e).Committed? { PublishKeepsQueueSound(s, p, e); }
    case DoDispositions(call, key, e, reader, id) =>
      if SaveDispositions(s, call, key, e, reader, id).Committed? {
        var gid, a := DispositionsFrame(s, call, key, e, reader, id);
      }
    case DoDraft(call, key, e, reader, id, eventId) =>
      if DraftProposal(s, call, key, e, reader, id, eventId).Committed? {
        DraftFrame(s, call, key, e, reader, id, eventId);
      }
    case DoTransition(call, key, e, reader, eventId, decisionId) =>
      if TransitionProposal(s, call, key, e, reader, eventId, decisionId).Committed? {
        var p, a := TransitionFrame(s, call, key, e, reader, eventId, decisionId);
      }
    case DoDecide(call, key, expected, reader, id) =>
      if Decide(s, call, key, expected, reader, id).Committed? {
        var v := DecideFrame(s, call, key, expected, reader, id);
        UpsertedOnce(s.rules, RuleFor(s, call, v, id));
      }
    case DoFile(r, key, e, manifests, ids) =>
      if FileReviews.WriteFile(s, r, key, e, manifests, ids).Committed? { FileFrame(s, r, key, e, manifests, ids); }
  }

  lemma {:induction false} RunKeepsQueueSound(s: Store, commands: seq<Command>)
    requires QueueSound(s)
    ensures QueueSound(Run(s, commands))
    decreases |commands|
  {
    hide QueueSound, Step;
    if commands != [] {
      StepKeepsQueueSound(s, commands[0]);
      RunKeepsQueueSound(Step(s, commands[0]), commands[1..]);
    }
  }

  /** The rule that the queue looks up after a decision is that decision's rule. */
  lemma DecisionIsLookedUp(rules: seq<Rule>, rule: Rule)
    requires OneRuleEach(rules)
    ensures LastRule(RulesFor(Upserted(rules, rule), rule.repo), rule.repo, rule.groupId) == Some(rule)
  {
    hide OneRuleEach;
    UpsertedOnce(rules, rule);
    UpsertedMembers(rules, rule);
    RulesForMembers(Upserted(rules, rule), rule.repo);
    LastRuleIsOnly(RulesFor(Upserted(rules, rule), rule.repo), rule.repo, rule);
  }

  /**
   A decision committed in a reachable store moves its group to the pile of the verdict exactly
   when every bound revision names the evidence snapshot its row records, and otherwise to the
   pile that needs attention; while local rows claim a member the pile does not depend on it.
   */
  lemma DecisionTakesEffect(commands: seq<Command>, call: DecideCall, key: string, expected: Option<nat>,
                            reader: Reader,
                            id: string)
    returns (v: Verified)
    requires Decide(Run(EMPTY_STORE, commands), call, key, expected, reader, id).Committed?
    ensures var s := Run(EMPTY_STORE, commands);
            var s' := Decide(s, call, key, expected, reader, id).store;
            && VerifyGroup(s, call.groupId, reader) == Done(v) && v.group in s.groups && s'.groups == s.groups
            && PileOf(QueueView(s'), v.group) ==
               if exists n | n in v.group.prNumbers :: Local(QueueView(s), n) then PileOf(QueueView(s), v.group)
               else if Pinned(s, v.group) then PileFor(call.verdict)
               else Needs
  {
    hide Run, QueueSound;
    var s := Run(EMPTY_STORE, commands);
    assert QueueSound(EMPTY_STORE) by { EmptyIsQueueSound(); }
    RunKeepsQueueSound(EMPTY_STORE, commands);
    v := DecisionMoves(s, call, key, expected, reader, id);
  }

  lemma EmptyIsQueueSound()
    ensures QueueSound(EMPTY_STORE)
  {}

  lemma DecisionMoves(s: Store, call: DecideCall, key: string, expected: Option<nat>, reader: Reader, id: string)
    returns (v: Verified)
    requires Decide(s, call, key, expected, reader, id).Committed? && QueueSound(s)
    ensures var s' := Decide(s, call, key, expected, reader, id).store;
            && VerifyGroup(s, call.groupId, reader) == Done(v) && v.group in s.groups && s'.groups == s.groups
            && PileOf(QueueView(s'), v.group) ==
               if exists n | n in v.group.prNumbers :: Local(QueueView(s), n) then PileOf(QueueView(s), v.group)
               else if Pinned(s, v.group) then PileFor(call.verdict)
               else Needs
  {
    hide VerifyGroup, Decide, ActiveOf, Digest, BoundTo, FreeRuleId, RuleApplies, Local, Settled, CurrentRevisions,
         OneRuleEach, Upserted, LastRule, RulesFor, Pinned;
    v := DecideFrame(s, call, key, expected, reader, id);
    DecideAdvances(s, call, key, expected, reader, id);
    VerifiedIsBound(s, call.groupId, reader);
    NumbersAreMembers(v);
    VerifiedFromRows(s, call.groupId, reader);
    PinnedMeansSame(s, v.group, v.revisions);
    SortedStayDistinct(v.group.prNumbers);
    DecisionAppliesIff(s, call, v, id);
    DecisionIsLookedUp(s.rules, RuleFor(s, call, v, id));
    var s' := Decide(s, call, key, expected, reader, id).store;
    SameLocals(QueueView(s), QueueView(s'), v.group);
  }

  /** Local rows count the same in two views that differ in their rules only. */
  lemma SameLocals(v: View, w: View, g: StoreGroup)
    requires v.local == w.local && v.current == w.current
    ensures forall n :: Local(v, n) == Local(w, n) && Settled(v, n) == Settled(w, n)
    ensures (exists n | n in g.prNumbers :: Local(v, n)) ==> PileOf(w, g) == PileOf(v, g)
  {
    hide SameRevision, RuleApplies, LastRule;
  }

  /** A publication that switches the repository and keeps rows naming another one leaves no local row in the queue. */
  lemma SwitchedRowsDoNotCount(s: Store, p: Publication, e: Expect)
    requires Publish(s, p, e).Committed? && p.prs.None? && p.repo.Some?
    requires forall row | row in s.prs :: row.repo.Some? && row.repo != p.repo
    ensures var v := QueueView(Publish(s, p, e).store); v.current == map[] && forall n :: !Local(v, n)
  {
    hide ValidStore, ActiveOf, RulesFor, OfRepo, CurrentRevisions, QueueRepo;
    var t := Publish(s, p, e).store;
    NoneCurrent(t.prs, t.repo, t.source);
  }

  lemma NoneCurrent(prs: seq<PrRow>, repo: string, source: string)
    requires forall row | row in prs :: row.repo.Some? && row.repo.value != repo
    ensures CurrentRevisions(prs, repo, source) == map[]
  {
    hide RowsOf;
    forall n
      ensures n !in CurrentRevisions(prs, repo, source)
    {
      RowsOfNumber(prs, n);
      if RowsOf(prs, n) != [] { assert RowsOf(prs, n)[0] in prs; }
    }
  }

  // ---- what a committed write recorded ----

  lemma {:induction false} WithoutRowsElements(rows: seq<Disposition>, repo: string, numbers: set<int>)
    ensures forall d :: d in WithoutRows(rows, repo, numbers) <==> d in rows && !(d.repo == repo && d.pr in numbers)
  {
    if rows != [] {
      var n := |rows| - 1;
      WithoutRowsElements(rows[..n], repo, numbers);
      assert rows == rows[..n] + [rows[n]];
    }
  }

  /** The rows now recorded are the new ones and every old one about something else. */
  ghost predicate ReplacesOnly(before: seq<Disposition>, after: seq<Disposition>, repo: string,
                               rows: seq<Disposition>) {
    forall d :: d in after <==> d in rows || (d in before && !(d.repo == repo && d.pr in RowNumbers(rows)))
  }

  lemma AppliedReplacesOnly(s: Store, w: Writer, gid: string, rows: seq<Disposition>, id: string)
    ensures ReplacesOnly(s.dispositions, Applied(s, w, gid, rows, id).dispositions, w.repo, Stamped(rows, id))
  {
    hide WithoutRows;
    WithoutRowsElements(s.dispositions, w.repo, RowNumbers(Stamped(rows, id)));
  }

  /** Every row carries the judgement of its item and the current revisions of the verified group, under one event. */
  ghost predicate RecordsItems(w: Writer, v: Verified, items: seq<Item>, rows: seq<Disposition>, id: string) {
    && |rows| == |items|
    && forall i | 0 <= i < |rows| ::
         rows[i].eventId == id && BoundRow(w, v.group.prNumbers, v.revisions, items[i], rows[i].(eventId := ""))
  }

  lemma BoundItemsAreRecorded(w: Writer, v: Verified, items: seq<Item>, id: string)
    requires BindItems(w, v.group.prNumbers, v.revisions, items).Done?
    ensures RecordsItems(w, v, items, Stamped(BindItems(w, v.group.prNumbers, v.revisions, items).value, id), id)
  {
    hide BindFirst, BoundRow;
    BoundItems(w, v.group.prNumbers, v.revisions, items, |items|);
    var rows := BindItems(w, v.group.prNumbers, v.revisions, items).value;
    AllUnstamped(w, v.group.prNumbers, v.revisions, items, |items|);
    assert forall i | 0 <= i < |rows| :: Stamped(rows, id)[i].(eventId := "") == rows[i];
  }

  lemma {:induction false} AllUnstamped(w: Writer, members: seq<int>, revisions: seq<RevisionEvidence>,
                                        items: seq<Item>, n: nat)
    requires n <= |items| && BindFirst(w, members, revisions, items, n).Done?
    ensures var rows := BindFirst(w, members, revisions, items, n).value;
            |rows| == n && forall i | 0 <= i < n :: rows[i].eventId == ""
  {
    if n > 0 { AllUnstamped(w, members, revisions, items, n - 1); }
  }

  /**
   A committed disposition write recorded its items, bound to a group verified at that moment, and
   touched no other row.
   */
  lemma SavedDispositionsAreBound(s: Store, call: DispositionCall, key: string, e: Expect, reader: Reader, id: string)
    returns (gid: string, v: Verified)
    requires SaveDispositions(s, call, key, e, reader, id).Committed?
    ensures GroupForWrite(s, gid, reader) == Done(v)
    ensures var o := SaveDispositions(s, call, key, e, reader, id);
            && RecordsItems(Writer(s.repo, call.actor, call.source, call.requireComplete), v, call.items, o.value, id)
            && ReplacesOnly(s.dispositions, o.store.dispositions, s.repo, o.value)
            && o.store.queue == QueueOf(o.store)
  {
    hide SaveDispositions, GroupForWrite, BindItems, Applied, QueueOf, ReplacesOnly, RecordsItems;
    var a;
    gid, a := DispositionsFrame(s, call, key, e, reader, id);
    v := a.verified;
    var w := Writer(s.repo, call.actor, call.source, call.requireComplete);
    BoundItemsAreRecorded(w, v, call.items, id);
    AppliedReplacesOnly(s, w, v.group.groupId, a.rows, id);
  }

  /**
   An accepted proposal is about the group snapshot it was drafted for, and its items were
   bound again, with complete evidence, to the revisions read at acceptance.
   */
  lemma AcceptedProposalIsBound(s: Store, call: TransitionCall, key: string, e: Expect, reader: Reader,
                                eventId: string, decisionId: string)
    returns (p: Proposal, v: Verified)
    requires call.action.Accept? && TransitionProposal(s, call, key, e, reader, eventId, decisionId).Committed?
    ensures FindProposal(s, call.proposalId) == Some(p) && (p.status.Draft? || p.status.Edited?)
    ensures GroupForWrite(s, p.groupId, reader) == Done(v)
    ensures p.groupDigest == Digest(v.revisions) && p.groupMembers == v.group.prNumbers
    ensures var o := TransitionProposal(s, call, key, e, reader, eventId, decisionId);
            && RecordsItems(Writer(s.repo, call.actor, "human", true), v, Or(call.items, AsItems(p.items)),
                            o.value.items, decisionId)
            && ReplacesOnly(s.dispositions, o.store.dispositions, s.repo, o.value.items)
            && (call.items.None? ==>
                  |o.value.items| == |p.items|
                  && forall i | 0 <= i < |p.items| :: Confirms(p.items[i], o.value.items[i]))
  {
    hide TransitionProposal, GroupForWrite, BindItems, Applied, ReplacesOnly, RecordsItems, Digest, AsItems,
         FindProposal, Replaced, Confirms;
    var a;
    p, a := TransitionFrame(s, call, key, e, reader, eventId, decisionId);
    v := a.verified;
    var w := Writer(s.repo, call.actor, "human", true);
    BoundItemsAreRecorded(w, v, Or(call.items, AsItems(p.items)), decisionId);
    AppliedReplacesOnly(s, w, v.group.groupId, a.rows, decisionId);
    if call.items.None? {
      RecordedAsDrafted(w, v, p.items, TransitionProposal(s, call, key, e, reader, eventId, decisionId).value.items,
                        decisionId);
    }
  }

  /** The recorded row judges as the drafted one did, and is about the change that the drafted one was about. */
  ghost predicate Confirms(drafted: Disposition, row: Disposition) {
    && row.pr == drafted.pr && row.kind == drafted.kind && row.reason == drafted.reason
    && row.duplicateOf == drafted.duplicateOf && SameChange(drafted.revision, row.revision)
    && (drafted.target.Some? ==> row.target.Some? && SameChange(drafted.target.value, row.target.value))
  }

  lemma RecordedAsDrafted(w: Writer, v: Verified, drafted: seq<Disposition>, rows: seq<Disposition>, id: string)
    requires RecordsItems(w, v, AsItems(drafted), rows, id)
    ensures |rows| == |drafted| && forall i | 0 <= i < |rows| :: Confirms(drafted[i], rows[i])
  {
    hide SameChange, ValidMember;
    forall i | 0 <= i < |rows|
      ensures Confirms(drafted[i], rows[i])
    {
      assert BoundRow(w, v.group.prNumbers, v.revisions, AsItems(drafted)[i], rows[i].(eventId := ""));
    }
  }

  /** After a decision or an accepted, edited or rejected proposal the stored queue is the projection of the store. */
  lemma QueueFollows(s: Store, c: Command)
    requires c.DoDecide? || c.DoTransition? || c.DoDispositions?
    ensures Step(s, c) == s || Step(s, c).queue == QueueOf(Step(s, c))
  {
    hide Step, QueueView, PilesOf, ValidStore;
    match c
    case DoDispositions(call, key, e, reader, id) =>
      if SaveDispositions(s, call, key, e, reader, id).Committed? {
        var gid, a := DispositionsFrame(s, call, key, e, reader, id);
      }
      StepOf(s, c);
    case DoTransition(call, key, e, reader, eventId, decisionId) =>
      StepOf(s, c);
      TransitionQueue(s, call, key, e, reader, eventId, decisionId);
    case DoDecide(call, key, expected, reader, id) =>
      StepOf(s, c);
      DecideQueue(s, call, key, expected, reader, id);
  }

  lemma StepOf(s: Store, c: Command)
    ensures c.DoDispositions? ==>
              Step(s, c) == StoreAfter(s, SaveDispositions(s, c.dispositions, c.key, c.e, c.reader, c.eventId))
    ensures c.DoTransition? ==>
              Step(s, c) ==
              StoreAfter(s, TransitionProposal(s, c.transition, c.key, c.e, c.reader, c.eventId, c.decisionId))
    ensures c.DoDecide? ==> Step(s, c) == StoreAfter(s, Decide(s, c.decide, c.key, c.expected, c.reader, c.eventId))
  {
    hide SaveDispositions, TransitionProposal, Decide, Publish, DraftProposal;
  }

  lemma RefreshedQueue<T>(s: Store, changed: Store, value: T)
    requires Commit(s, Refreshed(changed), value).Committed?
    ensures Commit(s, Refreshed(changed), value).store.queue == QueueOf(Commit(s, Refreshed(changed), value).store)
  {
    hide ValidStore, QueueView, PilesOf;
    SameQueue(changed, Commit(s, Refreshed(changed), value).store);
  }

  lemma TransitionQueue(s: Store, call: TransitionCall, key: string, e: Expect, reader: Reader, eventId: string,
                        decisionId: string)
    ensures var o := TransitionProposal(s, call, key, e, reader, eventId, decisionId);
            o.Committed? ==> o.store.queue == QueueOf(o.store)
  {
    hide QueueOf, Refreshed, Commit, TransitionRows, Transitioned, LocallyAcyclic, FindProposal;
    if TransitionProposal(s, call, key, e, reader, eventId, decisionId).Committed? {
      var p := FindProposal(s, call.proposalId).value;
      var a := TransitionRows(s, p, call, reader).value;
      var (changed, updated) := Transitioned(s, p, call, a, key, eventId, decisionId);
      RefreshedQueue(s, changed, updated);
    }
  }

  lemma DecideQueue(s: Store, call: DecideCall, key: string, expected: Option<nat>, reader: Reader, id: string)
    ensures var o := Decide(s, call, key, expected, reader, id); o.Committed? ==> o.store.queue == QueueOf(o.store)
  {
    hide QueueOf, Refreshed, Commit, VerifyGroup, Decided, RuleFor, FindEvent;
    if Decide(s, call, key, expected, reader, id).Committed? {
      var v := VerifyGroup(s, call.groupId, reader).value;
      var request := DecisionRequest(Or(call.expectedRepo, s.repo), call.groupId, call.verdict, call.actor);
      RefreshedQueue(s, Decided(s, call, v, key, request, id), RuleFor(s, call, v, id));
    }
  }
}
