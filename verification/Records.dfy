/**
 The records of one store of triage/store.py. Repository names, sources and actors are
 already normalised (trimmed and lower case), timestamps are not modelled, and text
 that no writer inspects is left out.
 */
module Records {
  import opened Models
  import opened Duplicates

  const MAX_SAFE_INTEGER: nat := 9007199254740991
  const MAX_PROPOSAL_ITEMS: nat := 200

  datatype Failure =
    | BadInput | NotFound | Corrupt | IncompleteEvidence | RevisionConflict
    | RepositoryConflict | StaleSnapshot | StaleVersion | KeyReused | ProposalConflict | VersionExhausted

  datatype Result<+T> = Done(value: T) | Failed(failure: Failure)

  // ---- revisions ----

  function SourceKey(source: string): string { if source == "gh" then "github" else source }

  /** `_revision_equal` and `_same_revision`: the same change, whoever cached it. */
  predicate SameRevision(a: RevisionEvidence, b: RevisionEvidence) {
    && a.prNumber == b.prNumber && a.headSha == b.headSha && a.baseSha == b.baseSha
    && a.contentDigest == b.contentDigest && SourceKey(a.source) == SourceKey(b.source)
  }

  /** `_revision_binding_equal`. */
  predicate SameBinding(a: RevisionEvidence, b: RevisionEvidence) {
    && SameRevision(a, b) && a.additions == b.additions && a.deletions == b.deletions
    && a.evidenceComplete == b.evidenceComplete
  }

  // ---- decisions on single pull requests ----

  datatype Kind = Keep | Duplicate | Reject | NeedsHardware | Upgrade | Pending

  datatype Disposition = Disposition(
    repo: string, pr: int, revision: RevisionEvidence, kind: Kind, reason: string,
    duplicateOf: Option<int>, target: Option<RevisionEvidence>,
    actor: string, eventId: string, source: string)

  /** What a caller submits for one pull request. */
  datatype Item = Item(
    pr: int, kind: Kind, reason: string, revision: Option<RevisionEvidence>,
    duplicateOf: Option<int>, target: Option<RevisionEvidence>)

  function AsItem(d: Disposition): Item {
    Item(d.pr, d.kind, d.reason, Some(d.revision), d.duplicateOf, d.target)
  }

  predicate PointsOn(d: Disposition) { d.kind.Duplicate? && d.duplicateOf.Some? }

  /** The graph of `_check_duplicate_cycles`: keyed by number alone, the last row of a number wins. */
  function EdgesFrom(g: Edges, rows: seq<Disposition>): Edges {
    if rows == [] then g else
      var before := EdgesFrom(g, rows[..|rows| - 1]);
      var d := rows[|rows| - 1];
      if PointsOn(d) then before[d.pr := d.duplicateOf.value] else before - {d.pr}
  }

  // ---- groups, rules and decisions ----

  /** A stored group; `digest` is the material of the snapshot digest. */
  datatype StoreGroup = StoreGroup(
    groupId: string, repo: string, prNumbers: seq<int>,
    memberRevisions: seq<RevisionEvidence>, digest: seq<RevisionEvidence>, evidenceComplete: bool)

  /**
   A persisted pull request: the evidence it records, the repository and the evidence source it
   names, if any, whether it lists files itself, and whether the rest of it can be read.
   */
  datatype PrRow = PrRow(
    number: int, recorded: RevisionEvidence, repo: Option<string>, source: string, listsFiles: bool, intact: bool)

  datatype Verdict = Approved | Rejected | ForHardware | ForUpgrade

  datatype Rule = Rule(
    ruleId: string, groupId: string, repo: string, verdict: Verdict,
    reviewedNumbers: seq<int>, reviewedRevisions: seq<RevisionEvidence>, digest: seq<RevisionEvidence>,
    evidenceComplete: bool, eventId: string, actor: string)

  datatype DecisionEvent = DecisionEvent(
    eventId: string, repo: string, groupId: string, verdict: Verdict, actor: string,
    digest: seq<RevisionEvidence>, revisions: seq<RevisionEvidence>, evidenceComplete: bool, rule: Rule)

  datatype DecisionRequest = DecisionRequest(repo: string, groupId: string, verdict: Verdict, actor: string)

  datatype DispositionEvent = DispositionEvent(
    eventId: string, repo: string, groupId: string, actor: string, source: string, items: seq<Disposition>)

  datatype DispositionRequest = DispositionRequest(
    repo: string, groupId: string, items: seq<Item>, actor: string, source: string)

  // ---- proposals ----

  datatype Status = Draft | Edited | Accepted | Declined

  datatype Proposal = Proposal(
    proposalId: string, status: Status, repo: string, groupId: string, canonicalPr: Option<int>,
    items: seq<Disposition>, groupDigest: seq<RevisionEvidence>, groupMembers: seq<int>,
    author: string, lastActor: string, decisionEventId: string)

  datatype Action = Draw | Accept | Edit | Decline

  datatype ProposalEvent = ProposalEvent(
    eventId: string, proposalId: string, repo: string, action: Action, actor: string, source: string,
    items: seq<Disposition>)

  datatype ProposalRequest = ProposalRequest(
    proposalId: string, repo: string, groupId: string, action: Action, items: Option<seq<Item>>,
    canonicalPr: Option<int>, actor: string, reason: string)

  /** A recorded result; drafts record only the proposal's id. */
  datatype ProposalRecord = ProposalRecord(request: ProposalRequest, proposalId: string, result: Option<Proposal>)

  // ---- the queue ----

  datatype Piles = Piles(
    needs: seq<string>, known: seq<string>, junk: seq<string>, hardware: seq<string>, upgrade: seq<string>,
    reviewed: seq<string>)

  // ---- file reviews ----

  datatype FileText = FileText(severity: string, title: string, explanation: string, line: Option<nat>)

  datatype FileReview = FileReview(
    repo: string, pr: int, path: string, revision: RevisionEvidence, reviewed: bool, actor: string,
    eventId: string, note: string, digest: string)

  datatype FindingStatus = Open | Resolved | Dismissed

  datatype Origin = ByHuman | FromDraft(draftId: string, draftFindingId: string)

  datatype Finding = Finding(
    findingId: string, repo: string, pr: int, path: string, revision: RevisionEvidence, text: FileText,
    status: FindingStatus, origin: Origin, author: string, adoptedBy: string, aboutMissingPatch: bool, digest: string)

  datatype DraftStatus = Undecided | Adopted(findingId: string) | TurnedDown

  datatype DraftFinding = DraftFinding(
    draftFindingId: string, path: string, text: FileText, status: DraftStatus, decidedBy: string,
    aboutMissingPatch: bool)

  datatype FileDraft = FileDraft(
    draftId: string, repo: string, pr: int, revision: RevisionEvidence, findings: seq<DraftFinding>,
    coveragePaths: seq<string>, author: string)

  datatype CoverageStatus = Inspected | Skipped | Missing

  datatype Coverage = Coverage(
    repo: string, pr: int, path: string, revision: RevisionEvidence, status: CoverageStatus, actor: string,
    draftId: string)

  datatype FileEvent = FileEvent(eventId: string, request: FileRequest, source: string)

  /** The identity a file record is bound to. */
  datatype RevisionKey = RevisionKey(headSha: string, baseSha: string, contentDigest: string)

  function KeyOf(r: RevisionEvidence): RevisionKey { RevisionKey(r.headSha, r.baseSha, r.contentDigest) }

  datatype DraftedItem = DraftedItem(path: string, text: FileText)

  datatype CoveredItem = CoveredItem(path: string, status: CoverageStatus)

  datatype FileRequest =
    | ReviewRequest(repo: string, pr: int, path: string, reviewed: bool, note: string, actor: string,
                    revision: Option<RevisionKey>)
    | FindingRequest(repo: string, pr: int, path: string, text: FileText, actor: string, revision: Option<RevisionKey>)
    | StatusRequest(repo: string, findingId: string, status: FindingStatus, actor: string)
    | DraftRequest(repo: string, pr: int, findings: seq<DraftedItem>, coverage: seq<CoveredItem>, actor: string,
                   revision: Option<RevisionKey>)
    | AdoptRequest(repo: string, draftId: string, draftFindingId: string, accept: bool, actor: string)

  datatype FileAnswer =
    | AReview(review: FileReview)
    | AFinding(finding: Finding)
    | ADraft(draft: FileDraft)
    | AnAdoption(draft: FileDraft, created: Option<Finding>, changed: bool)

  datatype FileState = FileState(
    reviews: seq<FileReview>, findings: seq<Finding>, coverage: seq<Coverage>, drafts: seq<FileDraft>,
    events: seq<FileEvent>, keys: map<string, (FileRequest, FileAnswer)>)

  // ---- the store ----

  datatype Store = Store(
    version: nat, snapshotVersion: nat, repo: string, source: string,
    groups: seq<StoreGroup>, groupsByRepo: map<string, seq<StoreGroup>>, prs: seq<PrRow>,
    rules: seq<Rule>, reservedRuleIds: set<string>,
    decisionEvents: seq<DecisionEvent>, decisionKeys: map<string, (DecisionRequest, string)>,
    dispositions: seq<Disposition>, dispositionEvents: seq<DispositionEvent>,
    dispositionKeys: map<string, (DispositionRequest, seq<Disposition>)>,
    proposals: seq<Proposal>, proposalEvents: seq<ProposalEvent>, proposalKeys: map<string, ProposalRecord>,
    queue: Piles, files: FileState)

  const NO_PILES := Piles([], [], [], [], [], [])

  const EMPTY_STORE := Store(
    0, 0, "", "", [], map[], [], [], {}, [], map[], [], [], map[], [], [], map[], NO_PILES,
    FileState([], [], [], [], [], map[]))

  /** How a writer ends: a new store, an answer without change, or a refusal without change. */
  datatype Outcome<+T> = Committed(store: Store, value: T) | Unchanged(value: T) | Refused(failure: Failure)

  function StoreAfter<T>(s: Store, o: Outcome<T>): Store { if o.Committed? then o.store else s }

  // ---- validation at every commit ----

  ghost predicate AcyclicRows(rows: seq<Disposition>) { Acyclic(EdgesFrom(map[], rows)) }

  predicate ValidRow(d: Disposition) { d.pr > 0 && d.repo != "" && 1 <= |d.reason| <= 1000 }

  predicate UniqueIds(ids: seq<string>) {
    forall i, j | 0 <= i < j < |ids| :: ids[i] != ids[j]
  }

  function EventIds(events: seq<DecisionEvent>): (ids: seq<string>)
    ensures |ids| == |events| && forall i | 0 <= i < |ids| :: ids[i] == events[i].eventId
  {
    seq(|events|, i requires 0 <= i < |events| => events[i].eventId)
  }

  function FindingIds(findings: seq<Finding>): (ids: seq<string>)
    ensures |ids| == |findings| && forall i | 0 <= i < |ids| :: ids[i] == findings[i].findingId
  {
    seq(|findings|, i requires 0 <= i < |findings| => findings[i].findingId)
  }

  function DraftIds(drafts: seq<FileDraft>): (ids: seq<string>)
    ensures |ids| == |drafts| && forall i | 0 <= i < |ids| :: ids[i] == drafts[i].draftId
  {
    seq(|drafts|, i requires 0 <= i < |drafts| => drafts[i].draftId)
  }

  predicate CompleteEvent(e: DecisionEvent) { e.eventId != "" && e.repo != "" && e.groupId != "" && e.actor != "" }

  /** `_validate_review_records`, and the group ids of the active snapshot. */
  predicate NamedRecords(groups: seq<StoreGroup>, f: FileState) {
    && (forall g | g in groups :: g.groupId != "")
    && (forall r | r in f.reviews :: r.repo != "") && (forall c | c in f.coverage :: c.repo != "")
    && (forall x | x in f.findings :: x.repo != "") && (forall d | d in f.drafts :: d.repo != "")
  }

  /** `_validate_store`, as far as typed records can violate it. */
  ghost predicate ValidStore(s: Store) {
    && NamedRecords(s.groups, s.files) && s.version <= MAX_SAFE_INTEGER && s.snapshotVersion <= MAX_SAFE_INTEGER
    && UniqueIds(EventIds(s.decisionEvents)) && (forall e | e in s.decisionEvents :: CompleteEvent(e))
    && (forall k | k in s.decisionKeys :: k != "" && s.decisionKeys[k].1 in EventIds(s.decisionEvents))
    && (forall d | d in s.dispositions :: ValidRow(d)) && AcyclicRows(s.dispositions)
    && (forall p | p in s.proposals :: p.proposalId != "" && p.repo != "" && p.groupId != "" && AcyclicRows(p.items))
    && UniqueIds(FindingIds(s.files.findings)) && UniqueIds(DraftIds(s.files.drafts))
  }
}
