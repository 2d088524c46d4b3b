/**
 What a retry of a keyed request answers after any later commits, publications of another
 repository included: every outcome, for the same request and for any other.
 */
module StoreRetries {
  import opened Models
  import opened Records
  import opened GroupEvidence
  import opened Stores
  import opened FileReviews
  import opened StoreRuns
  import opened StoreSafety

  lemma KeysKeptByRun(s: Store, later: seq<Command>)
    ensures Kept(s.dispositionKeys, Run(s, later).dispositionKeys) && Kept(s.proposalKeys, Run(s, later).proposalKeys)
    ensures Kept(s.decisionKeys, Run(s, later).decisionKeys) && Kept(s.files.keys, Run(s, later).files.keys)
    ensures s.decisionEvents <= Run(s, later).decisionEvents
    ensures ProposalIds(s.proposals) <= ProposalIds(Run(s, later).proposals)
  {
    hide ValidStore, Run;
    RunExtends(s, later);
  }

  /** A retried disposition write: the repository is compared first, then the whole request. */
  lemma DispositionsRetry(s: Store, call: DispositionCall, key: string, e: Expect, reader: Reader, id: string,
                          later: seq<Command>,
                          call': DispositionCall, e': Expect, reader': Reader, id': string)
    requires key != "" && SaveDispositions(s, call, key, e, reader, id).Committed?
    ensures var o := SaveDispositions(s, call, key, e, reader, id);
            var t := Run(o.store, later);
            SaveDispositions(t, call', key, e', reader', id') ==
              if t.repo == "" || Or(call'.repo, t.repo) != t.repo then Refused(RepositoryConflict)
              else if t.repo == s.repo
                && call'.(repo := None, requireComplete := false) == call.(repo := None, requireComplete := false)
              then Unchanged(o.value)
              else Refused(KeyReused)
  {
    hide ValidStore, QueueOf, LocallyAcyclic, AcceptItems, TargetGroup, Commit, Run, Advances, Extends;
    var o := SaveDispositions(s, call, key, e, reader, id);
    DispositionsAdvance(s, call, key, e, reader, id);
    KeysKeptByRun(o.store, later);
  }

  lemma {:induction false} FindEventFirst(events: seq<DecisionEvent>, more: seq<DecisionEvent>, e: DecisionEvent)
    requires UniqueIds(EventIds(events + [e]))
    ensures FindEvent(events + [e] + more, e.eventId) == Some(e)
  {
    var all := events + [e] + more;
    if events == [] {
      assert all[0] == e;
    } else {
      assert EventIds(events + [e])[0] == events[0].eventId && EventIds(events + [e])[|events|] == e.eventId;
      assert all[1..] == events[1..] + [e] + more;
      assert EventIds(events[1..] + [e]) == EventIds(events + [e])[1..];
      FindEventFirst(events[1..], more, e);
    }
  }

  /**
   A retried decision: only the request is compared, so a retry that names its repository is
   answered from any other one.
   */
  lemma DecideRetry(s: Store, call: DecideCall, key: string, expected: Option<nat>, reader: Reader, id: string,
                    later: seq<Command>,
                    call': DecideCall, expected': Option<nat>, reader': Reader, id': string)
    requires key != "" && Decide(s, call, key, expected, reader, id).Committed?
    ensures var o := Decide(s, call, key, expected, reader, id);
            var t := Run(o.store, later);
            Decide(t, call', key, expected', reader', id') ==
              if t.repo == "" then Refused(BadInput)
              else if Or(call'.expectedRepo, t.repo) == s.repo
                && call'.(expectedRepo := None) == call.(expectedRepo := None)
              then Unchanged(o.value)
              else Refused(KeyReused)
  {
    hide QueueOf, VerifyGroup, Commit, Run, Extends, FindEvent, FreeRuleId;
    var o := Decide(s, call, key, expected, reader, id);
    DecideAdvances(s, call, key, expected, reader, id);
    KeysKeptByRun(o.store, later);
    var t := Run(o.store, later);
    var event := o.store.decisionEvents[|o.store.decisionEvents| - 1];
    var more := t.decisionEvents[|o.store.decisionEvents|..];
    assert t.decisionEvents == s.decisionEvents + [event] + more;
    FindEventFirst(s.decisionEvents, more, event);
  }

  lemma {:induction false} FindUnique(proposals: seq<Proposal>, i: nat)
    requires UniqueIds(ProposalIds(proposals)) && i < |proposals|
    ensures ProposalsWith(proposals, proposals[i].proposalId) == [proposals[i]]
  {
    var ids, rest := ProposalIds(proposals), proposals[1..];
    assert ProposalIds(rest) == ids[1..];
    if i == 0 {
      forall j | 0 <= j < |rest| ensures rest[j].proposalId != proposals[0].proposalId {
        assert ids[0] != ids[j + 1];
      }
      NoneWith(rest, proposals[0].proposalId);
    } else {
      assert ids[0] != ids[i];
      FindUnique(rest, i - 1);
    }
  }

  lemma {:induction false} NoneWith(proposals: seq<Proposal>, id: string)
    requires forall j | 0 <= j < |proposals| :: proposals[j].proposalId != id
    ensures ProposalsWith(proposals, id) == []
  {
    if proposals != [] { NoneWith(proposals[1..], id); }
  }

  /** With unique ids the proposal at a position is the one its id finds. */
  lemma FoundAt(proposals: seq<Proposal>, s: Store, i: nat)
    requires s.proposals == proposals && UniqueIds(ProposalIds(proposals)) && i < |proposals|
    ensures FindProposal(s, proposals[i].proposalId) == Some(proposals[i])
  {
    hide UniqueIds, ProposalsWith;
    FindUnique(proposals, i);
  }

  /** With unique ids a proposal stays findable through any run. */
  lemma ProposalStaysFindable(s: Store, t: Store, id: string)
    requires FindProposal(s, id).Some? && ProposalIds(s.proposals) <= ProposalIds(t.proposals)
             && UniqueIds(ProposalIds(t.proposals))
    ensures FindProposal(t, id).Some?
  {
    hide UniqueIds, ProposalsWith;
    var i :| 0 <= i < |s.proposals| && s.proposals[i] == FindProposal(s, id).value;
    assert ProposalIds(t.proposals)[i] == ProposalIds(s.proposals)[i];
    FindUnique(t.proposals, i);
  }

  /** A retried transition: the proposal is looked up first, the recorded result wins over its present state. */
  lemma TransitionRetry(s: Store, call: TransitionCall, key: string, e: Expect, reader: Reader, eventId: string,
                        decisionId: string,
                        later: seq<Command>, call': TransitionCall, e': Expect, reader': Reader, eventId': string,
                        decisionId': string)
    requires key != "" && TransitionProposal(s, call, key, e, reader, eventId, decisionId).Committed?
    ensures var o := TransitionProposal(s, call, key, e, reader, eventId, decisionId);
            var t := Run(o.store, later);
            TransitionProposal(t, call', key, e', reader', eventId', decisionId') ==
              if call'.action.Draw? then Refused(BadInput)
              else if t.repo == "" || call'.repo != t.repo then Refused(RepositoryConflict)
              else if FindProposal(t, call'.proposalId).None? then Refused(NotFound)
              else if call'.(repo := "") == call.(repo := "") then Unchanged(o.value)
              else Refused(KeyReused)
  {
    hide ValidStore, QueueOf, TransitionRows, Commit, Run, FindProposal, AlreadySettled, Transitioned, LocallyAcyclic;
    var o := TransitionProposal(s, call, key, e, reader, eventId, decisionId);
    TransitionAdvances(s, call, key, e, reader, eventId, decisionId);
    KeysKeptByRun(o.store, later);
  }

  /** With new ids for new proposals, the proposal of a transition is found in every later store. */
  lemma TransitionRetryFinds(s: Store, call: TransitionCall, key: string, e: Expect, reader: Reader, eventId: string,
                             decisionId: string, later: seq<Command>)
    requires TransitionProposal(s, call, key, e, reader, eventId, decisionId).Committed?
    requires UniqueIds(ProposalIds(s.proposals))
    requires FreshRun(TransitionProposal(s, call, key, e, reader, eventId, decisionId).store, later)
    ensures var t := Run(TransitionProposal(s, call, key, e, reader, eventId, decisionId).store, later);
            FindProposal(t, call.proposalId).Some?
  {
    hide TransitionProposal, Run, FindProposal, UniqueIds, FreshRun, Replaced;
    var o := TransitionProposal(s, call, key, e, reader, eventId, decisionId);
    var p, a := TransitionFrame(s, call, key, e, reader, eventId, decisionId);
    ReplacedKeepsIds(s.proposals, o.value);
    RunKeepsProposalIdsUnique(o.store, later);
    RunExtends(o.store, later);
    ProposalStaysFindable(s, Run(o.store, later), call.proposalId);
  }

  function DraftRequestOf(repo: string, call: DraftCall): ProposalRequest {
    ProposalRequest("", repo, call.groupId, Draw, Some(call.items), call.canonicalPr, call.actor, "")
  }

  /** A retried draft: the recorded id is looked up, so the answer is the proposal in its present state. */
  lemma DraftRetry(s: Store, call: DraftCall, key: string, e: Expect, reader: Reader, id: string, eventId: string,
                   later: seq<Command>,
                   call': DraftCall, e': Expect, reader': Reader, id': string, eventId': string)
    requires key != "" && DraftProposal(s, call, key, e, reader, id, eventId).Committed?
    ensures var t := Run(DraftProposal(s, call, key, e, reader, id, eventId).store, later);
            DraftProposal(t, call', key, e', reader', id', eventId') ==
              if t.repo == "" || call'.repo != t.repo then Refused(RepositoryConflict)
              else if DraftRequestOf(t.repo, call') != DraftRequestOf(s.repo, call) then Refused(KeyReused)
              else if FindProposal(t, id).None? then Refused(NotFound)
              else Unchanged(FindProposal(t, id).value)
  {
    hide ValidStore, QueueOf, GroupForWrite, BindItems, Commit, Run, FindProposal;
    var o := DraftProposal(s, call, key, e, reader, id, eventId);
    DraftAdvances(s, call, key, e, reader, id, eventId);
    KeysKeptByRun(o.store, later);
  }

  /** A proposal stays as it is or leaves the drafted state. */
  ghost predicate DraftsOnlyLeave(s: Store, t: Store) {
    && |s.proposals| <= |t.proposals|
    && forall i | 0 <= i < |s.proposals| :: t.proposals[i] == s.proposals[i] || !t.proposals[i].status.Draft?
  }

  lemma StepOnlyLeaves(s: Store, c: Command)
    ensures DraftsOnlyLeave(s, Step(s, c))
  {
    hide Publish, SaveDispositions, DraftProposal, TransitionProposal, Decide, WriteFile, QueueOf, Applied, Upserted,
         Replaced, AcceptItems, TransitionRows, FindProposal, AlreadySettled;
    match c
    case DoPublish(p, e) =>
      if Publish(s, p, e).Committed? { PublishFrame(s, p, e); }
    case DoDispositions(call, key, e, reader, id) =>
      if SaveDispositions(s, call, key, e, reader, id).Committed? {
        var gid, a := DispositionsFrame(s, call, key, e, reader, id);
      }
    case DoDraft(call, key, e, reader, id, eventId) =>
      if DraftProposal(s, call, key, e, reader, id, eventId).Committed? {
        DraftFrame(s, call, key, e, reader, id, eventId);
      }
    case DoTransition(call, key, e, reader, eventId, decisionId) =>
      if TransitionProposal(s, call, key, e, reader, eventId, decisionId).Committed? {
        var p, a := TransitionFrame(s, call, key, e, reader, eventId, decisionId);
        TransitionAdvances(s, call, key, e, reader, eventId, decisionId);
        ReplacedEntries(s.proposals, TransitionProposal(s, call, key, e, reader, eventId, decisionId).value);
      }
    case DoDecide(call, key, expected, reader, id) =>
      if Decide(s, call, key, expected, reader, id).Committed? {
        var v := DecideFrame(s, call, key, expected, reader, id);
      }
    case DoFile(r, key, e, manifests, ids) =>
      if WriteFile(s, r, key, e, manifests, ids).Committed? { FileFrame(s, r, key, e, manifests, ids); }
  }

  lemma {:induction false} RunOnlyLeaves(s: Store, commands: seq<Command>)
    ensures DraftsOnlyLeave(s, Run(s, commands))
    decreases |commands|
  {
    hide Step;
    if commands != [] {
      StepOnlyLeaves(s, commands[0]);
      RunOnlyLeaves(Step(s, commands[0]), commands[1..]);
    }
  }

  /** The retry returns what was drafted exactly while the proposal is still a draft. */
  lemma DraftRetryReturnsDraft(s: Store, call: DraftCall, key: string, e: Expect, reader: Reader, id: string,
                               eventId: string, later: seq<Command>, e': Expect, reader': Reader, id': string,
                               eventId': string)
    requires key != "" && DraftProposal(s, call, key, e, reader, id, eventId).Committed?
    requires UniqueIds(ProposalIds(s.proposals)) && FreshIds(s, DoDraft(call, key, e, reader, id, eventId))
    requires var o := DraftProposal(s, call, key, e, reader, id, eventId);
             FreshRun(o.store, later) && Run(o.store, later).repo == s.repo
    ensures var o := DraftProposal(s, call, key, e, reader, id, eventId);
            var t, i := Run(o.store, later), |s.proposals|;
            var again := DraftProposal(t, call, key, e', reader', id', eventId');
            && i < |t.proposals| && t.proposals[i].proposalId == id && again == Unchanged(t.proposals[i])
            && (again == Unchanged(o.value) <==> t.proposals[i].status.Draft?)
  {
    hide DraftProposal, Run, FindProposal, FreshRun;
    var o := DraftProposal(s, call, key, e, reader, id, eventId);
    var t, i := Run(o.store, later), |s.proposals|;
    DraftFrame(s, call, key, e, reader, id, eventId);
    DraftAdvances(s, call, key, e, reader, id, eventId);
    OneMoreId(s.proposals, o.value);
    RunKeepsProposalIdsUnique(o.store, later);
    RunExtends(o.store, later);
    RunOnlyLeaves(o.store, later);
    assert ProposalIds(o.store.proposals)[i] == id && ProposalIds(t.proposals)[i] == id;
    FoundAt(t.proposals, t, i);
    DraftRetry(s, call, key, e, reader, id, eventId, later, call, e', reader', id', eventId');
  }

  lemma OneMoreId(proposals: seq<Proposal>, p: Proposal)
    requires UniqueIds(ProposalIds(proposals)) && forall x | x in proposals :: x.proposalId != p.proposalId
    ensures UniqueIds(ProposalIds(proposals + [p]))
  {
    assert ProposalIds(proposals + [p]) == ProposalIds(proposals) + [p.proposalId];
    forall i | 0 <= i < |proposals|
      ensures ProposalIds(proposals)[i] != p.proposalId
    {
      assert proposals[i] in proposals;
    }
  }

  /** A retried file write: repository first, then the whole request. */
  lemma FileRetry(s: Store, r: FileRequest, key: string, e: Expect, reader: ManifestReader, ids: Fresh,
                  later: seq<Command>,
                  r': FileRequest, e': Expect, reader': ManifestReader, ids': Fresh)
    requires key != "" && WriteFile(s, r, key, e, reader, ids).Committed?
    ensures var o := WriteFile(s, r, key, e, reader, ids);
            var t := Run(o.store, later);
            WriteFile(t, r', key, e', reader', ids') ==
              if t.repo == "" || r'.repo != t.repo then Refused(RepositoryConflict)
              else if r' == r then Unchanged(o.value)
              else Refused(KeyReused)
  {
    hide ValidStore, ChangeOf, Commit, Run;
    var o := WriteFile(s, r, key, e, reader, ids);
    FileAdvances(s, r, key, e, reader, ids);
    KeysKeptByRun(o.store, later);
  }
}
