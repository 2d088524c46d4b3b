/**
 Every run of the store's writers, in any interleaving: versions, append-only logs, and
 what a retry of a keyed request returns.
 */
module StoreRuns {
  import opened Models
  import opened Records
  import opened GroupEvidence
  import opened Stores
  import opened FileReviews

  /** One call of one writer with everything it reads from outside the store. */
  datatype Command =
    | DoPublish(publication: Publication, e: Expect)
    | DoDispositions(dispositions: DispositionCall, key: string, e: Expect, reader: Reader, eventId: string)
    | DoDraft(draft: DraftCall, key: string, e: Expect, reader: Reader, id: string, eventId: string)
    | DoTransition(transition: TransitionCall, key: string, e: Expect, reader: Reader, eventId: string,
                   decisionId: string)
    | DoDecide(decide: DecideCall, key: string, expected: Option<nat>, reader: Reader, eventId: string)
    | DoFile(request: FileRequest, key: string, e: Expect, manifests: ManifestReader, ids: Fresh)

  ghost function Step(s: Store, c: Command): Store {
    match c
    case DoPublish(p, e) => StoreAfter(s, Publish(s, p, e))
    case DoDispositions(call, key, e, reader, id) => StoreAfter(s, SaveDispositions(s, call, key, e, reader, id))
    case DoDraft(call, key, e, reader, id, eventId) =>
      StoreAfter(s, DraftProposal(s, call, key, e, reader, id, eventId))
    case DoTransition(call, key, e, reader, eventId, decisionId) =>
      StoreAfter(s, TransitionProposal(s, call, key, e, reader, eventId, decisionId))
    case DoDecide(call, key, expected, reader, id) => StoreAfter(s, Decide(s, call, key, expected, reader, id))
    case DoFile(r, key, e, manifests, ids) => StoreAfter(s, WriteFile(s, r, key, e, manifests, ids))
  }

  ghost function Run(s: Store, commands: seq<Command>): Store
    decreases |commands|
  {
    if commands == [] then s else Run(Step(s, commands[0]), commands[1..])
  }

  /** Identifiers of new records are new. */
  ghost predicate FreshIds(s: Store, c: Command) {
    match c
    case DoDraft(_, _, _, _, id, _) => forall p | p in s.proposals :: p.proposalId != id
    case DoFile(_, _, _, _, ids) => forall i: nat, j: nat | ids.item(i) == ids.item(j) :: i == j
    case _ => true
  }

  ghost predicate FreshRun(s: Store, commands: seq<Command>)
    decreases |commands|
  {
    commands != [] ==> FreshIds(s, commands[0]) && FreshRun(Step(s, commands[0]), commands[1..])
  }

  // ---- what every step leaves in place ----

  ghost predicate Kept<K, V>(m: map<K, V>, m': map<K, V>) {
    forall k | k in m :: k in m' && m'[k] == m[k]
  }

  function ProposalIds(proposals: seq<Proposal>): (ids: seq<string>)
    ensures |ids| == |proposals| && forall i | 0 <= i < |ids| :: ids[i] == proposals[i].proposalId
  {
    seq(|proposals|, i requires 0 <= i < |proposals| => proposals[i].proposalId)
  }

  /** Logs are only extended, recorded answers never replaced, proposals never removed or reordered. */
  ghost predicate Extends(s: Store, s': Store) {
    && s.decisionEvents <= s'.decisionEvents && s.dispositionEvents <= s'.dispositionEvents
    && s.proposalEvents <= s'.proposalEvents && s.files.events <= s'.files.events
    && Kept(s.decisionKeys, s'.decisionKeys) && Kept(s.dispositionKeys, s'.dispositionKeys)
    && Kept(s.proposalKeys, s'.proposalKeys) && Kept(s.files.keys, s'.files.keys)
    && ProposalIds(s.proposals) <= ProposalIds(s'.proposals)
    && s.reservedRuleIds <= s'.reservedRuleIds
  }

  lemma ExtendsTransitive(s: Store, t: Store, u: Store)
    requires Extends(s, t) && Extends(t, u)
    ensures Extends(s, u)
  {}

  /** A commit changes the version by exactly one, and only a publication changes the snapshot version. */
  ghost predicate Advances(s: Store, s': Store, published: bool) {
    && s'.version == s.version + 1
    && s'.snapshotVersion == s.snapshotVersion + (if published then 1 else 0)
    && Extends(s, s') && ValidStore(s')
  }

  lemma Committing<T>(s: Store, changed: Store, value: T, published: bool)
    requires Commit(s, changed, value).Committed?
    requires Extends(s, changed) && changed.snapshotVersion == s.snapshotVersion + (if published then 1 else 0)
    ensures Advances(s, Commit(s, changed, value).store, published) && Commit(s, changed, value).value == value
  {
    hide ValidStore;
  }

  /** What the caller expects is what the store is. */
  predicate Expected(s: Store, e: Expect) {
    (e.version.Some? ==> e.version.value == s.version) && (e.snapshot.Some? ==> e.snapshot.value == s.snapshotVersion)
  }

  /** A snapshot is published exactly when nothing else was expected, both versions can grow and the result is valid. */
  lemma PublishIff(s: Store, p: Publication, e: Expect)
    ensures Publish(s, p, e).Committed? <==>
            && e.version in {None, Some(s.version)} && e.snapshot in {None, Some(s.snapshotVersion)}
            && s.version < MAX_SAFE_INTEGER && s.snapshotVersion < MAX_SAFE_INTEGER
            && ValidStore(Published(s, p).(version := s.version + 1))
  {
    hide ValidStore, Published;
  }

  lemma PublishAdvances(s: Store, p: Publication, e: Expect)
    requires Publish(s, p, e).Committed?
    ensures Advances(s, Publish(s, p, e).store, true)
    ensures Expected(s, e)
  {
    hide ValidStore;
    Committing(s, Published(s, p), (), true);
  }

  lemma DispositionsAdvance(s: Store, call: DispositionCall, key: string, e: Expect, reader: Reader, id: string)
    requires SaveDispositions(s, call, key, e, reader, id).Committed?
    ensures Advances(s, SaveDispositions(s, call, key, e, reader, id).store, false)
    ensures Expected(s, e)
    ensures s.repo != "" && Or(call.repo, s.repo) == s.repo
    ensures key != "" ==>
              var s' := SaveDispositions(s, call, key, e, reader, id).store;
              key in s'.dispositionKeys
              && s'.dispositionKeys[key] ==
                   (DispositionRequest(s.repo, call.groupId, call.items, call.actor, call.source),
                                             SaveDispositions(s, call, key, e, reader, id).value)
  {
    hide ValidStore, QueueOf, LocallyAcyclic, AcceptItems, TargetGroup, Stamped, WithoutRows;
    var target := Or(call.repo, s.repo);
    var request := DispositionRequest(target, call.groupId, call.items, call.actor, call.source);
    var w := Writer(s.repo, call.actor, call.source, call.requireComplete);
    var gid := TargetGroup(s, call.groupId, call.items).value;
    var a := AcceptItems(s, gid, w, call.items, reader).value;
    var done := Stamped(a.rows, id);
    var changed := Refreshed(DispositionsKeyed(Applied(s, w, a.verified.group.groupId, a.rows, id), key, request,
                                               done));
    Committing(s, changed, done, false);
  }

  lemma DraftAdvances(s: Store, call: DraftCall, key: string, e: Expect, reader: Reader, id: string, eventId: string)
    requires DraftProposal(s, call, key, e, reader, id, eventId).Committed?
    ensures Advances(s, DraftProposal(s, call, key, e, reader, id, eventId).store, false)
    ensures Expected(s, e)
    ensures s.repo != "" && call.repo == s.repo
    ensures var o := DraftProposal(s, call, key, e, reader, id, eventId);
            o.store.proposals == s.proposals + [o.value] && o.value.proposalId == id && o.value.status.Draft?
    ensures key != "" ==>
              var s' := DraftProposal(s, call, key, e, reader, id, eventId).store;
              key in s'.proposalKeys
              && s'.proposalKeys[key] ==
                 ProposalRecord(ProposalRequest("", s.repo, call.groupId, Draw, Some(call.items), call.canonicalPr,
                                                call.actor, ""), id, None)
  {
    hide ValidStore, GroupForWrite, BindItems, Digest;
    var v := GroupForWrite(s, call.groupId, reader).value;
    var rows := BindItems(Writer(s.repo, call.actor, "agent", false), v.group.prNumbers, v.revisions, call.items).value;
    var p := Drafted(s, call, Admitted(v, rows), id);
    var request := ProposalRequest("", s.repo, call.groupId, Draw, Some(call.items), call.canonicalPr, call.actor, "");
    var changed := s.(proposals := s.proposals + [p],
                      proposalEvents := s.proposalEvents +
                                        [ProposalEvent(eventId, id, s.repo, Draw, call.actor, "agent", [])]);
    Committing(s, ProposalsKeyed(changed, key, ProposalRecord(request, id, None)), p, false);
  }

  lemma ReplacedKeepsIds(proposals: seq<Proposal>, p: Proposal)
    ensures ProposalIds(Replaced(proposals, p)) == ProposalIds(proposals)
  {
    ReplacedEntries(proposals, p);
  }

  /** Applying rows changes the dispositions and appends one event. */
  lemma AppliedFrame(s: Store, w: Writer, gid: string, rows: seq<Disposition>, id: string)
    ensures var a := Applied(s, w, gid, rows, id);
            && a == s.(dispositions := a.dispositions, dispositionEvents := a.dispositionEvents)
            && s.dispositionEvents <= a.dispositionEvents
  {
    hide Stamped, WithoutRows, RowNumbers;
  }

  lemma TransitionedExtends(s: Store, p: Proposal, call: TransitionCall, a: Admitted, key: string, eventId: string,
                            decisionId: string)
    requires key != "" ==> key !in s.proposalKeys
    ensures var (changed, updated) := Transitioned(s, p, call, a, key, eventId, decisionId);
            && Extends(s, changed) && changed.snapshotVersion == s.snapshotVersion && changed.repo == s.repo
            && changed.proposalKeys ==
               if key == "" then s.proposalKeys
               else s.proposalKeys[key := ProposalRecord(TransitionRequest(s, call), p.proposalId, Some(updated))]
  {
    hide Applied, Stamped, Replaced, Updated;
    AppliedFrame(s, Writer(s.repo, call.actor, "human", true), a.verified.group.groupId, a.rows, decisionId);
    var updated := Transitioned(s, p, call, a, key, eventId, decisionId).1;
    ReplacedKeepsIds(s.proposals, updated);
    assert ProposalIds(s.proposals) == ProposalIds(Replaced(s.proposals, updated));
  }

  lemma TransitionAdvances(s: Store, call: TransitionCall, key: string, e: Expect, reader: Reader, eventId: string,
                           decisionId: string)
    requires TransitionProposal(s, call, key, e, reader, eventId, decisionId).Committed?
    ensures Advances(s, TransitionProposal(s, call, key, e, reader, eventId, decisionId).store, false)
    ensures Expected(s, e)
    ensures s.repo != "" && call.repo == s.repo && !call.action.Draw?
    ensures FindProposal(s, call.proposalId).Some?
    ensures key != "" ==>
              var o := TransitionProposal(s, call, key, e, reader, eventId, decisionId);
              key in o.store.proposalKeys
              && o.store.proposalKeys[key] == ProposalRecord(TransitionRequest(s, call), call.proposalId, Some(o.value))
  {
    hide ValidStore, QueueOf, LocallyAcyclic, TransitionRows, Transitioned, ProposalsWith;
    var p := FindProposal(s, call.proposalId).value;
    var a := TransitionRows(s, p, call, reader).value;
    var (changed, updated) := Transitioned(s, p, call, a, key, eventId, decisionId);
    TransitionedExtends(s, p, call, a, key, eventId, decisionId);
    Committing(s, Refreshed(changed), updated, false);
  }

  lemma DecideAdvances(s: Store, call: DecideCall, key: string, expected: Option<nat>, reader: Reader, id: string)
    requires Decide(s, call, key, expected, reader, id).Committed?
    ensures Advances(s, Decide(s, call, key, expected, reader, id).store, false)
    ensures (expected.Some? ==> expected.value == s.version)
            && (call.expectedRepo.Some? ==> call.expectedRepo.value == s.repo)
    ensures var o := Decide(s, call, key, expected, reader, id);
            && o.store.repo == s.repo != "" && o.store.decisionEvents != []
            && var event := o.store.decisionEvents[|o.store.decisionEvents| - 1];
               event.eventId == id && event.rule == o.value && o.store.decisionEvents == s.decisionEvents + [event]
    ensures key != "" ==>
              var s' := Decide(s, call, key, expected, reader, id).store;
              key in s'.decisionKeys
                && s'.decisionKeys[key] == (DecisionRequest(s.repo, call.groupId, call.verdict, call.actor), id)
  {
    hide ValidStore, QueueOf, VerifyGroup, FreeRuleId, Upserted, Digest;
    var v := VerifyGroup(s, call.groupId, reader).value;
    var request := DecisionRequest(Or(call.expectedRepo, s.repo), call.groupId, call.verdict, call.actor);
    Committing(s, Refreshed(Decided(s, call, v, key, request, id)), RuleFor(s, call, v, id), false);
  }

  /** No change of the file records is committed without one more event, and none loses a recorded answer. */
  lemma ChangeKeepsLog(s: Store, r: FileRequest, reader: ManifestReader, ids: Fresh)
    requires ChangeOf(s, r, reader, ids).Done? && ChangeOf(s, r, reader, ids).value.Changed?
    ensures var f := ChangeOf(s, r, reader, ids).value.change.files;
            f.events == s.files.events && f.keys == s.files.keys
  {
    hide ReviewTarget, ReviewEvidence, Locate, DraftItems, CoverItems, WithoutReview, WithoutCovered, CanonicalRecord,
         FindDrafted, Replacing;
  }

  lemma FileAdvances(s: Store, r: FileRequest, key: string, e: Expect, reader: ManifestReader, ids: Fresh)
    requires WriteFile(s, r, key, e, reader, ids).Committed?
    ensures Advances(s, WriteFile(s, r, key, e, reader, ids).store, false)
    ensures Expected(s, e)
    ensures s.repo != "" && r.repo == s.repo
    ensures key != "" ==>
              var o := WriteFile(s, r, key, e, reader, ids);
              key in o.store.files.keys && o.store.files.keys[key] == (r, o.value)
  {
    hide ValidStore, ChangeOf;
    var c := ChangeOf(s, r, reader, ids).value.change;
    ChangeKeepsLog(s, r, reader, ids);
    Committing(s, s.(files := Recorded(c.files, r, key, ids.eventId, SourceOf(r), c.answer)), c.answer, false);
  }

  /**
   Another version or snapshot than the expected one: no writer changes the store, and a request
   without a recorded answer that names the right repository is refused for just that reason.
   */
  lemma UnexpectedIsRefused(s: Store, c: Command)
    requires !c.DoDecide? && ((c.e.version.Some? && c.e.version.value != s.version)
                              || (c.e.snapshot.Some? && c.e.snapshot.value != s.snapshotVersion))
    ensures Step(s, c) == s
    ensures var stale := if c.e.snapshot.Some? && c.e.snapshot.value != s.snapshotVersion then StaleSnapshot
                         else StaleVersion;
            && (c.DoPublish? ==> Publish(s, c.publication, c.e) == Refused(stale))
            && (c.DoDispositions? && s.repo != "" && Or(c.dispositions.repo, s.repo) == s.repo && c.key == "" ==>
                  SaveDispositions(s, c.dispositions, c.key, c.e, c.reader, c.eventId) == Refused(stale))
            && (c.DoDraft? && s.repo != "" && c.draft.repo == s.repo && c.key == "" ==>
                  DraftProposal(s, c.draft, c.key, c.e, c.reader, c.id, c.eventId) == Refused(stale))
            && (c.DoTransition? && s.repo != "" && c.transition.repo == s.repo && c.key == ""
                && !c.transition.action.Draw? && FindProposal(s, c.transition.proposalId).Some? ==>
                  TransitionProposal(s, c.transition, c.key, c.e, c.reader, c.eventId, c.decisionId) == Refused(stale))
            && (c.DoFile? && s.repo != "" && c.request.repo == s.repo && c.key == "" ==>
                  WriteFile(s, c.request, c.key, c.e, c.manifests, c.ids) == Refused(stale))
  {
    hide Commit, GroupForWrite, BindItems, TransitionRows, FindProposal, ChangeOf, TargetGroup, AcceptItems,
         LocallyAcyclic, Transitioned, QueueOf;
  }

  /** Every step either leaves the store as it is or commits the next version of it. */
  lemma StepAdvances(s: Store, c: Command)
    ensures Step(s, c) == s || Advances(s, Step(s, c), c.DoPublish?)
  {
    hide ValidStore, Publish, SaveDispositions, DraftProposal, TransitionProposal, Decide, WriteFile, Advances;
    match c
    case DoPublish(p, e) =>
      if Publish(s, p, e).Committed? { PublishAdvances(s, p, e); }
    case DoDispositions(call, key, e, reader, id) =>
      if SaveDispositions(s, call, key, e, reader, id).Committed? { DispositionsAdvance(s, call, key, e, reader, id); }
    case DoDraft(call, key, e, reader, id, eventId) =>
      if DraftProposal(s, call, key, e, reader, id, eventId).Committed? {
        DraftAdvances(s, call, key, e, reader, id, eventId);
      }
    case DoTransition(call, key, e, reader, eventId, decisionId) =>
      if TransitionProposal(s, call, key, e, reader, eventId, decisionId).Committed? {
        TransitionAdvances(s, call, key, e, reader, eventId, decisionId);
      }
    case DoDecide(call, key, expected, reader, id) =>
      if Decide(s, call, key, expected, reader, id).Committed? { DecideAdvances(s, call, key, expected, reader, id); }
    case DoFile(r, key, e, manifests, ids) =>
      if WriteFile(s, r, key, e, manifests, ids).Committed? { FileAdvances(s, r, key, e, manifests, ids); }
  }

  /** Over any run versions never fall, logs are only extended and the store stays valid. */
  lemma {:induction false} RunExtends(s: Store, commands: seq<Command>)
    ensures Extends(s, Run(s, commands))
    ensures s.version <= Run(s, commands).version <= s.version + |commands|
    ensures s.snapshotVersion <= Run(s, commands).snapshotVersion
    ensures Run(s, commands).version == s.version ==> Run(s, commands) == s
    ensures ValidStore(s) ==> ValidStore(Run(s, commands))
    decreases |commands|
  {
    hide ValidStore, Step;
    if commands != [] {
      var t := Step(s, commands[0]);
      StepAdvances(s, commands[0]);
      RunExtends(t, commands[1..]);
      ExtendsTransitive(s, t, Run(t, commands[1..]));
    }
  }

  /** Two states of one run with the same store version are the same store. */
  lemma VersionDeterminesStore(s: Store, first: seq<Command>, more: seq<Command>)
    requires Run(Run(s, first), more).version == Run(s, first).version
    ensures Run(Run(s, first), more) == Run(s, first)
  {
    RunExtends(Run(s, first), more);
  }
}
