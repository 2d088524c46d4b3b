/**
 What holds in every store that the writers can reach: the known pile is backed by recorded
 approvals, and settled proposals stay settled.
 */
module StoreSafety {
  import opened Models
  import opened Records
  import opened GroupEvidence
  import opened Active
  import opened Queues
  import opened Stores
  import opened FileReviews
  import opened StoreRuns

  // ---- which records each writer leaves alone ----

  /** A publication replaces the snapshot, filed under its repository, and leaves every human record. */
  lemma PublishFrame(s: Store, p: Publication, e: Expect)
    requires Publish(s, p, e).Committed?
    ensures var s' := Publish(s, p, e).store;
            && s'.rules == s.rules && s'.dispositions == s.dispositions && s'.dispositionEvents == s.dispositionEvents
            && s'.proposals == s.proposals && s'.files == s.files && s'.decisionEvents == s.decisionEvents
            && s'.repo == (if p.repo.Some? then p.repo.value else s.repo)
            && s'.prs == (if p.prs.Some? then p.prs.value else s.prs)
            && s'.source == (if p.source.Some? then p.source.value else s.source)
            && s'.queue == (if p.queue.Some? then p.queue.value else s.queue)
            && |s'.groups| == |p.groups|
            && (forall i | 0 <= i < |p.groups| :: s'.groups[i] == p.groups[i].(repo := s'.repo))
            && (forall r :: r in s'.groupsByRepo <==> r in s.groupsByRepo || r == s'.repo != "")
            && forall r | r in s'.groupsByRepo ::
                 s'.groupsByRepo[r] == if r == s'.repo != "" then s'.groups else s.groupsByRepo[r]
  {
    hide ValidStore;
  }

  lemma DispositionsFrame(s: Store, call: DispositionCall, key: string, e: Expect, reader: Reader, id: string)
    returns (gid: string, a: Admitted)
    requires SaveDispositions(s, call, key, e, reader, id).Committed?
    ensures var s' := SaveDispositions(s, call, key, e, reader, id).store;
            var w := Writer(s.repo, call.actor, call.source, call.requireComplete);
            && s'.rules == s.rules && s'.proposals == s.proposals && s'.files == s.files
            && s'.decisionEvents == s.decisionEvents
            && s'.repo == s.repo && s'.prs == s.prs && s'.groups == s.groups && s'.groupsByRepo == s.groupsByRepo
            && AcceptItems(s, gid, w, call.items, reader) == Done(a)
            && LocallyAcyclic(s, s.repo, a.verified.revisions, a.rows)
            && s'.dispositions == Applied(s, w, a.verified.group.groupId, a.rows, id).dispositions
            && s'.dispositionEvents == Applied(s, w, a.verified.group.groupId, a.rows, id).dispositionEvents
            && s'.queue == QueueOf(s') && SaveDispositions(s, call, key, e, reader, id).value == Stamped(a.rows, id)
  {
    hide ValidStore, LocallyAcyclic, AcceptItems, TargetGroup, Stamped, WithoutRows, QueueView, PilesOf;
    var w := Writer(s.repo, call.actor, call.source, call.requireComplete);
    gid := TargetGroup(s, call.groupId, call.items).value;
    a := AcceptItems(s, gid, w, call.items, reader).value;
    SameQueue(SaveDispositions(s, call, key, e, reader, id).store,
              DispositionsKeyed(Applied(s, w, a.verified.group.groupId, a.rows, id), key,
                                DispositionRequest(Or(call.repo, s.repo), call.groupId, call.items, call.actor,
                                                   call.source),
                                Stamped(a.rows, id)));
  }

  /** The queue depends on the snapshot, the rules and the dispositions only. */
  lemma SameQueue(s: Store, t: Store)
    requires s.groups == t.groups && s.prs == t.prs && s.repo == t.repo && s.source == t.source
    requires s.rules == t.rules && s.dispositions == t.dispositions
    ensures QueueOf(s) == QueueOf(t)
  {}

  lemma DraftFrame(s: Store, call: DraftCall, key: string, e: Expect, reader: Reader, id: string, eventId: string)
    requires DraftProposal(s, call, key, e, reader, id, eventId).Committed?
    ensures var o := DraftProposal(s, call, key, e, reader, id, eventId);
            && o.store.proposals == s.proposals + [o.value] && o.value.proposalId == id && o.value.status.Draft?
            && o.store == s.(version := s.version + 1, proposals := o.store.proposals,
                             proposalEvents := o.store.proposalEvents,
                             proposalKeys := o.store.proposalKeys)
  {
    hide ValidStore, GroupForWrite, BindItems, Digest;
  }

  /** What a transition makes of its proposal: an edit and an acceptance replace the items, a rejection keeps them. */
  ghost predicate LeadsTo(p: Proposal, call: TransitionCall, rows: seq<Disposition>, updated: Proposal,
                          decisionId: string) {
    && (call.action.Accept? ==>
          && updated.status.Accepted? && updated.decisionEventId == decisionId && |updated.items| == |rows|
          && forall i | 0 <= i < |rows| :: updated.items[i] == rows[i].(eventId := decisionId))
    && (call.action.Edit? ==>
          updated.status.Edited? && updated.decisionEventId == p.decisionEventId && updated.items == rows)
    && (call.action.Decline? ==>
          updated.status.Declined? && updated.decisionEventId == p.decisionEventId && updated.items == p.items)
    && updated.canonicalPr == (if call.canonicalPr.Some? then call.canonicalPr else p.canonicalPr)
    && updated.lastActor == call.actor && updated.proposalId == p.proposalId && updated.repo == p.repo
    && updated.groupId == p.groupId && updated.groupDigest == p.groupDigest && updated.groupMembers == p.groupMembers
    && updated.author == p.author
  }

  ghost predicate TransitionEffect(s: Store, s': Store, p: Proposal, call: TransitionCall, a: Admitted,
                                   updated: Proposal, decisionId: string) {
    && s'.rules == s.rules && s'.files == s.files && s'.decisionEvents == s.decisionEvents
    && s'.repo == s.repo && s'.prs == s.prs && s'.groups == s.groups && s'.groupsByRepo == s.groupsByRepo
    && s'.proposals == Replaced(s.proposals, updated) && LeadsTo(p, call, a.rows, updated, decisionId)
    && if call.action.Accept? then
         var applied := Applied(s, Writer(s.repo, call.actor, "human", true), a.verified.group.groupId, a.rows,
                                decisionId);
         && s'.dispositions == applied.dispositions && s'.dispositionEvents == applied.dispositionEvents
         && updated.items == Stamped(a.rows, decisionId) && updated.decisionEventId == decisionId
       else s'.dispositions == s.dispositions && s'.dispositionEvents == s.dispositionEvents
  }

  lemma TransitionedEffect(s: Store, p: Proposal, call: TransitionCall, a: Admitted, key: string, eventId: string,
                           decisionId: string)
    ensures var (changed, updated) := Transitioned(s, p, call, a, key, eventId, decisionId);
            TransitionEffect(s, changed, p, call, a, updated, decisionId)
  {
    hide Stamped, WithoutRows, Replaced;
  }

  lemma EffectCommitted(s: Store, changed: Store, p: Proposal, call: TransitionCall, a: Admitted, updated: Proposal,
                        decisionId: string)
    requires TransitionEffect(s, changed, p, call, a, updated, decisionId)
             && Commit(s, Refreshed(changed), updated).Committed?
    ensures TransitionEffect(s, Commit(s, Refreshed(changed), updated).store, p, call, a, updated, decisionId)
    ensures Commit(s, Refreshed(changed), updated).value == updated
  {
    hide ValidStore, QueueOf, Replaced, Applied;
  }

  lemma TransitionFrame(s: Store, call: TransitionCall, key: string, e: Expect, reader: Reader, eventId: string,
                        decisionId: string)
    returns (p: Proposal, a: Admitted)
    requires TransitionProposal(s, call, key, e, reader, eventId, decisionId).Committed?
    ensures FindProposal(s, call.proposalId) == Some(p) && AlreadySettled(p, call.action).None?
    ensures TransitionRows(s, p, call, reader) == Done(a)
    ensures call.action.Accept? ==> LocallyAcyclic(s, s.repo, a.verified.revisions, a.rows)
    ensures var o := TransitionProposal(s, call, key, e, reader, eventId, decisionId);
            TransitionEffect(s, o.store, p, call, a, o.value, decisionId)
  {
    hide ValidStore, QueueOf, LocallyAcyclic, TransitionRows, Transitioned, ProposalsWith, TransitionEffect;
    p := FindProposal(s, call.proposalId).value;
    a := TransitionRows(s, p, call, reader).value;
    var (changed, updated) := Transitioned(s, p, call, a, key, eventId, decisionId);
    TransitionedEffect(s, p, call, a, key, eventId, decisionId);
    EffectCommitted(s, changed, p, call, a, updated, decisionId);
  }

  lemma DecideFrame(s: Store, call: DecideCall, key: string, expected: Option<nat>, reader: Reader,
                    id: string) returns (v: Verified)
    requires Decide(s, call, key, expected, reader, id).Committed?
    ensures VerifyGroup(s, call.groupId, reader) == Done(v) && (call.verdict.Approved? ==> v.complete)
    ensures var o := Decide(s, call, key, expected, reader, id);
            && o.store.dispositions == s.dispositions && o.store.dispositionEvents == s.dispositionEvents
            && o.store.proposals == s.proposals && o.store.files == s.files && o.store.repo == s.repo
            && o.store.groups == s.groups && o.store.groupsByRepo == s.groupsByRepo && o.store.prs == s.prs
            && o.store.source == s.source
            && o.value == RuleFor(s, call, v, id) && o.store.rules == Upserted(s.rules, o.value)
            && o.store.decisionEvents == s.decisionEvents + [EventFor(s, call, v, id)]
  {
    hide ValidStore, QueueOf, VerifyGroup, FreeRuleId, Upserted, Digest;
    v := VerifyGroup(s, call.groupId, reader).value;
  }

  lemma FileFrame(s: Store, r: FileRequest, key: string, e: Expect, reader: ManifestReader, ids: Fresh)
    requires WriteFile(s, r, key, e, reader, ids).Committed?
    ensures var s' := WriteFile(s, r, key, e, reader, ids).store; s' == s.(version := s.version + 1, files := s'.files)
  {
    hide ValidStore, ChangeOf;
  }

  // ---- the known pile ----

  ghost predicate BackedBy(e: DecisionEvent, rule: Rule) {
    && e.repo == rule.repo && e.groupId == rule.groupId && e.verdict == rule.verdict && e.eventId == rule.eventId
    && e.revisions == rule.reviewedRevisions && e.evidenceComplete == rule.evidenceComplete
  }

  /** Every rule is the recorded outcome of a decision. */
  ghost predicate RulesBacked(s: Store) {
    forall rule | rule in s.rules :: exists e :: e in s.decisionEvents && BackedBy(e, rule)
  }

  lemma {:induction false} UpsertedMembers(rules: seq<Rule>, rule: Rule)
    ensures forall x | x in Upserted(rules, rule) :: x == rule || x in rules
    ensures rule in Upserted(rules, rule)
  {
    if rules != [] { UpsertedMembers(rules[1..], rule); }
  }

  lemma StepKeepsRulesBacked(s: Store, c: Command)
    requires RulesBacked(s)
    ensures RulesBacked(Step(s, c))
  {
    hide Publish, SaveDispositions, DraftProposal, TransitionProposal, Decide, WriteFile, QueueOf, BackedBy, Applied,
         Upserted, Replaced;
    match c
    case DoPublish(p, e) =>
      if Publish(s, p, e).Committed? { PublishFrame(s, p, e); }
    case DoDispositions(call, key, e, reader, id) =>
      if SaveDispositions(s, call, key, e, reader, id).Committed? {
        var gid, a := DispositionsFrame(s, call, key, e, reader, id);
      }
    case DoDraft(call, key, e, reader, id, eventId) =>
      if DraftProposal(s, call, key, e, reader, id, eventId).Committed? {
        DraftFrame(s, call, key, e, reader, id, eventId);
      }
    case DoTransition(call, key, e, reader, eventId, decisionId) =>
      if TransitionProposal(s, call, key, e, reader, eventId, decisionId).Committed? {
        var p, a := TransitionFrame(s, call, key, e, reader, eventId, decisionId);
      }
    case DoDecide(call, key, expected, reader, id) =>
      if Decide(s, call, key, expected, reader, id).Committed? {
        var v := DecideFrame(s, call, key, expected, reader, id);
        DecisionBacksRule(s, Step(s, c), call, v, id);
      }
    case DoFile(r, key, e, manifests, ids) =>
      if WriteFile(s, r, key, e, manifests, ids).Committed? { FileFrame(s, r, key, e, manifests, ids); }
  }

  lemma DecisionBacksRule(s: Store, s': Store, call: DecideCall, v: Verified, id: string)
    requires RulesBacked(s)
    requires s'.rules == Upserted(s.rules, RuleFor(s, call, v, id))
             && s'.decisionEvents == s.decisionEvents + [EventFor(s, call, v, id)]
    ensures RulesBacked(s')
  {
    hide FreeRuleId, Digest, Upserted;
    var rule, event := RuleFor(s, call, v, id), EventFor(s, call, v, id);
    UpsertedMembers(s.rules, rule);
    assert BackedBy(event, rule);
    forall x | x in s'.rules
      ensures exists e :: e in s'.decisionEvents && BackedBy(e, x)
    {
      if x in s.rules {
        var e :| e in s.decisionEvents && BackedBy(e, x);
        assert e in s'.decisionEvents;
      } else {
        assert event in s'.decisionEvents;
      }
    }
  }

  lemma {:induction false} RunKeepsRulesBacked(s: Store, commands: seq<Command>)
    requires RulesBacked(s)
    ensures RulesBacked(Run(s, commands))
    decreases |commands|
  {
    hide RulesBacked, Step;
    if commands != [] {
      StepKeepsRulesBacked(s, commands[0]);
      RunKeepsRulesBacked(Step(s, commands[0]), commands[1..]);
    }
  }

  /**
   In every store reached from the empty one, a group in the known pile has a recorded
   approval of its repository whose revisions are the group's bound ones, all complete,
   one for each member.
   */
  lemma KnownIsRecorded(commands: seq<Command>, id: string) returns (g: StoreGroup, e: DecisionEvent)
    requires var s := Run(EMPTY_STORE, commands); id in QueueOf(s).known
    ensures var s := Run(EMPTY_STORE, commands);
            && g in s.groups && g.groupId == id && e in s.decisionEvents && e.verdict.Approved?
            && e.groupId == id && e.repo == g.repo && e.evidenceComplete
            && (forall r :: r in e.revisions <==> r in g.memberRevisions)
            && AllComplete(e.revisions) && NumberSet(e.revisions) == Members(g.prNumbers)
  {
    hide Run, PilesOf, ActiveOf, PileOf;
    var s := Run(EMPTY_STORE, commands);
    RunKeepsRulesBacked(EMPTY_STORE, commands);
    var rule;
    g, rule := KnownIsApproved(QueueView(s), s.groups, id);
    assert rule in s.rules;
    e :| e in s.decisionEvents && BackedBy(e, rule);
  }

  // ---- proposals ----

  predicate Terminal(p: Proposal) { p.status.Accepted? || p.status.Declined? }

  /** Settled proposals are untouched. */
  ghost predicate SettledStay(s: Store, s': Store) {
    && |s.proposals| <= |s'.proposals|
    && forall i | 0 <= i < |s.proposals| && Terminal(s.proposals[i]) :: s'.proposals[i] == s.proposals[i]
  }

  lemma {:induction false} OnlyOneWith(proposals: seq<Proposal>, id: string, i: nat)
    requires |ProposalsWith(proposals, id)| == 1 && i < |proposals| && proposals[i].proposalId == id
    ensures proposals[i] == ProposalsWith(proposals, id)[0]
  {
    if i > 0 {
      if proposals[0].proposalId == id {
        SomeWith(proposals[1..], id, i - 1);
      } else {
        OnlyOneWith(proposals[1..], id, i - 1);
      }
    }
  }

  lemma {:induction false} SomeWith(proposals: seq<Proposal>, id: string, i: nat)
    requires i < |proposals| && proposals[i].proposalId == id
    ensures ProposalsWith(proposals, id) != []
  {
    if i > 0 { SomeWith(proposals[1..], id, i - 1); }
  }

  lemma TransitionKeepsSettled(s: Store, p: Proposal, updated: Proposal, action: Action)
    requires FindProposal(s, p.proposalId) == Some(p) && updated.proposalId == p.proposalId
             && AlreadySettled(p, action).None?
    ensures forall i | 0 <= i < |s.proposals| && Terminal(s.proposals[i]) ::
              Replaced(s.proposals, updated)[i] == s.proposals[i]
  {
    hide Replaced, ProposalsWith;
    ReplacedEntries(s.proposals, updated);
    forall i | 0 <= i < |s.proposals| && Terminal(s.proposals[i])
      ensures Replaced(s.proposals, updated)[i] == s.proposals[i]
    {
      if s.proposals[i].proposalId == p.proposalId { OnlyOneWith(s.proposals, p.proposalId, i); }
    }
  }

  lemma StepKeepsSettled(s: Store, c: Command)
    ensures SettledStay(s, Step(s, c))
  {
    hide Publish, SaveDispositions, DraftProposal, TransitionProposal, Decide, WriteFile, QueueOf, Applied, Upserted,
         Replaced, AcceptItems, TransitionRows, FindProposal, AlreadySettled;
    match c
    case DoPublish(p, e) =>
      if Publish(s, p, e).Committed? { PublishFrame(s, p, e); }
    case DoDispositions(call, key, e, reader, id) =>
      if SaveDispositions(s, call, key, e, reader, id).Committed? {
        var gid, a := DispositionsFrame(s, call, key, e, reader, id);
      }
    case DoDraft(call, key, e, reader, id, eventId) =>
      if DraftProposal(s, call, key, e, reader, id, eventId).Committed? {
        DraftFrame(s, call, key, e, reader, id, eventId);
      }
    case DoTransition(call, key, e, reader, eventId, decisionId) =>
      if TransitionProposal(s, call, key, e, reader, eventId, decisionId).Committed? {
        var p, a := TransitionFrame(s, call, key, e, reader, eventId, decisionId);
        TransitionKeepsSettled(s, p, TransitionProposal(s, call, key, e, reader, eventId, decisionId).value,
                               call.action);
      }
    case DoDecide(call, key, expected, reader, id) =>
      if Decide(s, call, key, expected, reader, id).Committed? {
        var v := DecideFrame(s, call, key, expected, reader, id);
      }
    case DoFile(r, key, e, manifests, ids) =>
      if WriteFile(s, r, key, e, manifests, ids).Committed? { FileFrame(s, r, key, e, manifests, ids); }
  }

  /** Accepted and rejected proposals are absorbing over every run. */
  lemma {:induction false} RunKeepsSettled(s: Store, commands: seq<Command>)
    ensures SettledStay(s, Run(s, commands))
    decreases |commands|
  {
    hide Step, Terminal;
    if commands != [] {
      StepKeepsSettled(s, commands[0]);
      RunKeepsSettled(Step(s, commands[0]), commands[1..]);
    }
  }

  /**
   Acceptance records its rows once, under the one event that the proposal then names;
   an edit or a rejection records nothing. Whatever follows, the accepted proposal stays.
   */
  lemma AcceptanceAppliesOnce(s: Store, call: TransitionCall, key: string, e: Expect, reader: Reader, eventId: string,
                              decisionId: string,
                              i: nat, later: seq<Command>)
    requires TransitionProposal(s, call, key, e, reader, eventId, decisionId).Committed?
    requires i < |s.proposals| && s.proposals[i].proposalId == call.proposalId
    ensures var o := TransitionProposal(s, call, key, e, reader, eventId, decisionId);
            var p, t := o.value, Run(o.store, later);
            if call.action.Accept? then
              && (exists gid: string :: o.store.dispositionEvents == s.dispositionEvents +
                    [DispositionEvent(decisionId, s.repo, gid, call.actor, "human", p.items)])
              && (forall d | d in p.items :: d in o.store.dispositions && d.eventId == decisionId)
              && p.decisionEventId == decisionId && p.status.Accepted?
              && i < |t.proposals| && t.proposals[i] == p
              && s.dispositionEvents + [o.store.dispositionEvents[|s.dispositionEvents|]] <= t.dispositionEvents
            else o.store.dispositionEvents == s.dispositionEvents && o.store.dispositions == s.dispositions
  {
    hide TransitionProposal, TransitionRows, Run, Replaced, ProposalsWith, WithoutRows;
    var o := TransitionProposal(s, call, key, e, reader, eventId, decisionId);
    var p, a := TransitionFrame(s, call, key, e, reader, eventId, decisionId);
    if call.action.Accept? {
      AcceptedInPlace(s, o.store, p, o.value, i);
      RunKeepsSettled(o.store, later);
      RunExtends(o.store, later);
    }
  }

  lemma {:induction false} ReplacedAt(proposals: seq<Proposal>, p: Proposal, i: nat)
    requires i < |proposals| && proposals[i].proposalId == p.proposalId
    requires forall j | 0 <= j < i :: proposals[j].proposalId != p.proposalId
    ensures Replaced(proposals, p)[i] == p
  {
    if i > 0 { ReplacedAt(proposals[1..], p, i - 1); }
  }

  lemma AcceptedInPlace(s: Store, s': Store, p: Proposal, updated: Proposal, i: nat)
    requires FindProposal(s, p.proposalId) == Some(p) && updated.proposalId == p.proposalId
    requires i < |s.proposals| && s.proposals[i].proposalId == p.proposalId
             && s'.proposals == Replaced(s.proposals, updated)
    ensures i < |s'.proposals| && s'.proposals[i] == updated
  {
    hide Replaced;
    forall j | 0 <= j < i
      ensures s.proposals[j].proposalId != p.proposalId
    {
      if s.proposals[j].proposalId == p.proposalId { TwoWith(s.proposals, p.proposalId, j, i); }
    }
    ReplacedAt(s.proposals, updated, i);
  }

  lemma {:induction false} TwoWith(proposals: seq<Proposal>, id: string, j: nat, i: nat)
    requires j < i < |proposals| && proposals[j].proposalId == id && proposals[i].proposalId == id
    ensures |ProposalsWith(proposals, id)| >= 2
  {
    if j == 0 {
      SomeWith(proposals[1..], id, i - 1);
    } else {
      TwoWith(proposals[1..], id, j - 1, i - 1);
    }
  }

  /** Fresh identifiers keep the proposal ids unique over every run. */
  lemma {:induction false} RunKeepsProposalIdsUnique(s: Store, commands: seq<Command>)
    requires UniqueIds(ProposalIds(s.proposals)) && FreshRun(s, commands)
    ensures UniqueIds(ProposalIds(Run(s, commands).proposals))
    decreases |commands|
  {
    hide Step, UniqueIds, FreshIds;
    if commands != [] {
      StepKeepsProposalIdsUnique(s, commands[0]);
      RunKeepsProposalIdsUnique(Step(s, commands[0]), commands[1..]);
    }
  }

  lemma StepKeepsProposalIdsUnique(s: Store, c: Command)
    requires UniqueIds(ProposalIds(s.proposals)) && FreshIds(s, c)
    ensures UniqueIds(ProposalIds(Step(s, c).proposals))
  {
    hide Publish, SaveDispositions, DraftProposal, TransitionProposal, Decide, WriteFile, QueueOf, Applied, Upserted,
         Replaced, AcceptItems, TransitionRows, FindProposal, AlreadySettled;
    match c
    case DoPublish(p, e) =>
      if Publish(s, p, e).Committed? { PublishFrame(s, p, e); }
    case DoDispositions(call, key, e, reader, id) =>
      if SaveDispositions(s, call, key, e, reader, id).Committed? {
        var gid, a := DispositionsFrame(s, call, key, e, reader, id);
      }
    case DoDraft(call, key, e, reader, id, eventId) =>
      if DraftProposal(s, call, key, e, reader, id, eventId).Committed? {
        DraftFrame(s, call, key, e, reader, id, eventId);
      }
    case DoTransition(call, key, e, reader, eventId, decisionId) =>
      if TransitionProposal(s, call, key, e, reader, eventId, decisionId).Committed? {
        var p, a := TransitionFrame(s, call, key, e, reader, eventId, decisionId);
        ReplacedKeepsIds(s.proposals, TransitionProposal(s, call, key, e, reader, eventId, decisionId).value);
      }
    case DoDecide(call, key, expected, reader, id) =>
      if Decide(s, call, key, expected, reader, id).Committed? {
        var v := DecideFrame(s, call, key, expected, reader, id);
      }
    case DoFile(r, key, e, manifests, ids) =>
      if WriteFile(s, r, key, e, manifests, ids).Committed? { FileFrame(s, r, key, e, manifests, ids); }
  }
}
