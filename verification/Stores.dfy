/**
 The writers of triage/store.py on groups, dispositions and proposals, each as one guarded
 step: what it refuses, what it answers without change, and the store it commits.
 */
module Stores {
  import opened Models
  import opened GroupIds
  import opened Duplicates
  import opened Records
  import opened GroupEvidence
  import opened Active
  import opened Queues

  // ---- shared guards ----

  datatype Expect = Expect(version: Option<nat>, snapshot: Option<nat>)

  function Stale(s: Store, e: Expect): Option<Failure> {
    if e.snapshot.Some? && e.snapshot.value != s.snapshotVersion then Some(StaleSnapshot)
    else if e.version.Some? && e.version.value != s.version then Some(StaleVersion)
    else None
  }

  /** Publication of a changed store: the next version, if it exists and the result is valid. */
  ghost function Commit<T>(s: Store, changed: Store, value: T): Outcome<T> {
    if s.version >= MAX_SAFE_INTEGER then Refused(VersionExhausted)
    else
      var next := changed.(version := s.version + 1);
      if ValidStore(next) then Committed(next, value) else Refused(Corrupt)
  }

  // ---- the queue of a store ----

  /** `_persisted_pr_scope`: the source that a row's evidence counts for in a store of this repository and source. */
  function PersistedScope(row: PrRow, repo: string, source: string): Result<string> {
    var active := SourceKey(source);
    var named := if row.source == "" && active == "fixtures" && row.listsFiles then active else SourceKey(row.source);
    if active !in {"fixtures", "github"} || named == "" then Failed(IncompleteEvidence)
    else if named != active then Failed(Corrupt)
    else if row.repo.Some? && (row.repo.value == "" || row.repo.value != repo) then Failed(Corrupt)
    else Done(active)
  }

  /** `_stored_pr_revision`; a store without a source takes the row's own. */
  function StoredRevision(row: PrRow, repo: string, source: string): Result<RevisionEvidence> {
    if row.number <= 0 then Failed(Corrupt)
    else
      match PersistedScope(row, repo, if source != "" then source else row.source)
      case Failed(f) => Failed(f)
      case Done(own) =>
        if row.intact then Done(row.recorded.(prNumber := row.number, source := own)) else Failed(Corrupt)
  }

  /** `_current_persisted_revisions`: the unique rows that can be read in this store. */
  function CurrentRevisions(prs: seq<PrRow>, repo: string, source: string): Revisions {
    map row | row in prs && |RowsOf(prs, row.number)| == 1
      && StoredRevision(RowsOf(prs, row.number)[0], repo, source).Done? ::
      row.number := StoredRevision(RowsOf(prs, row.number)[0], repo, source).value
  }

  function RulesFor(rules: seq<Rule>, repo: string): (r: seq<Rule>)
    ensures forall rule | rule in r :: rule in rules
  {
    if rules == [] then [] else (if rules[0].repo == repo then [rules[0]] else []) + RulesFor(rules[1..], repo)
  }

  ghost function QueueView(s: Store): View {
    var current := CurrentRevisions(s.prs, s.repo, s.source);
    View(QueueRepo(s.groups, s.repo), RulesFor(s.rules, s.repo), ActiveOf(s.dispositions, current, s.repo, s.source),
         current)
  }

  ghost function QueueOf(s: Store): Piles { PilesOf(QueueView(s), s.groups) }

  // ---- publishing a snapshot ----

  datatype Publication = Publication(
    groups: seq<StoreGroup>, prs: Option<seq<PrRow>>, source: Option<string>, repo: Option<string>,
    queue: Option<Piles>)

  function Or<T>(o: Option<T>, default: T): T { if o.Some? then o.value else default }

  function OfRepo(groups: seq<StoreGroup>, repo: string): (r: seq<StoreGroup>)
    ensures |r| == |groups| && forall i | 0 <= i < |r| :: r[i] == groups[i].(repo := repo)
  {
    seq(|groups|, i requires 0 <= i < |groups| => groups[i].(repo := repo))
  }

  function Published(s: Store, p: Publication): Store {
    var repo := Or(p.repo, s.repo);
    var groups := OfRepo(p.groups, repo);
    s.(groups := groups, prs := Or(p.prs, s.prs), source := Or(p.source, s.source), repo := repo,
       queue := Or(p.queue, s.queue),
       groupsByRepo := if repo != "" then s.groupsByRepo[repo := groups] else s.groupsByRepo,
       snapshotVersion := s.snapshotVersion + 1)
  }

  /** `save_run_state`. */
  ghost function Publish(s: Store, p: Publication, e: Expect): Outcome<()> {
    if Stale(s, e).Some? then Refused(Stale(s, e).value)
    else if s.version >= MAX_SAFE_INTEGER || s.snapshotVersion >= MAX_SAFE_INTEGER then Refused(VersionExhausted)
    else Commit(s, Published(s, p), ())
  }

  // ---- dispositions ----

  /** The rows of this group's pull requests that are about their current revisions. */
  function CurrentRows(rows: seq<Disposition>, repo: string, revisions: seq<RevisionEvidence>): map<int, Disposition> {
    if rows == [] then map[] else
      var before := CurrentRows(rows[..|rows| - 1], repo, revisions);
      var d := rows[|rows| - 1];
      var current := RevisionOf(revisions, d.pr);
      if d.repo == repo && current.Some? && SameRevision(d.revision, current.value) then before[d.pr := d] else before
  }

  function Stamped(rows: seq<Disposition>, eventId: string): (r: seq<Disposition>)
    ensures |r| == |rows| && forall i | 0 <= i < |r| :: r[i] == rows[i].(eventId := eventId)
  {
    seq(|rows|, i requires 0 <= i < |rows| => rows[i].(eventId := eventId))
  }

  function RowNumbers(rows: seq<Disposition>): set<int> { set d | d in rows :: d.pr }

  function WithoutRows(rows: seq<Disposition>, repo: string, numbers: set<int>): seq<Disposition> {
    if rows == [] then [] else
      WithoutRows(rows[..|rows| - 1], repo, numbers) +
      (var d := rows[|rows| - 1]; if d.repo == repo && d.pr in numbers then [] else [d])
  }

  /** The effect of `_apply_dispositions_unlocked`: replaced rows and one event. */
  function Applied(s: Store, w: Writer, gid: string, rows: seq<Disposition>, eventId: string): Store {
    var done := Stamped(rows, eventId);
    s.(dispositions := WithoutRows(s.dispositions, w.repo, RowNumbers(done)) + done,
       dispositionEvents := s.dispositionEvents + [DispositionEvent(eventId, w.repo, gid, w.actor, w.source, done)])
  }

  /** Its group-local cycle check. */
  ghost predicate LocallyAcyclic(s: Store, repo: string, revisions: seq<RevisionEvidence>, rows: seq<Disposition>) {
    Acyclic(EdgesFrom(EdgesOf(CurrentRows(s.dispositions, repo, revisions)), rows))
  }

  datatype DispositionCall = DispositionCall(
    repo: Option<string>, groupId: string, items: seq<Item>, actor: string, source: string, requireComplete: bool)

  predicate HoldsAll(g: StoreGroup, numbers: set<int>) { forall n | n in numbers :: n in g.prNumbers }

  function GroupsHolding(groups: seq<StoreGroup>, numbers: set<int>): seq<StoreGroup> {
    if groups == [] then [] else
      (if HoldsAll(groups[0], numbers) then [groups[0]] else []) + GroupsHolding(groups[1..], numbers)
  }

  /** The named group, or the only one that holds every submitted pull request. */
  function TargetGroup(s: Store, gid: string, items: seq<Item>): Result<string> {
    if gid != "" then Done(gid) else
      var found := if items == [] then [] else GroupsHolding(s.groups, ItemNumbers(items));
      if |found| == 1 then Done(found[0].groupId) else Failed(BadInput)
  }

  /** Items that passed every check, for the group they are about. */
  datatype Admitted = Admitted(verified: Verified, rows: seq<Disposition>)

  function AcceptItems(s: Store, gid: string, w: Writer, items: seq<Item>, reader: Reader): Result<Admitted> {
    match GroupForWrite(s, gid, reader)
    case Failed(f) => Failed(f)
    case Done(v) =>
      match BindItems(w, v.group.prNumbers, v.revisions, items)
      case Failed(f) => Failed(f)
      case Done(rows) => Done(Admitted(v, rows))
  }

  function DispositionsKeyed(s: Store, key: string, request: DispositionRequest, rows: seq<Disposition>): Store {
    if key == "" then s else s.(dispositionKeys := s.dispositionKeys[key := (request, rows)])
  }

  ghost function Refreshed(s: Store): Store { s.(queue := QueueOf(s)) }

  /** `save_dispositions`. */
  ghost function SaveDispositions(s: Store, call: DispositionCall, key: string, e: Expect, reader: Reader,
                                  eventId: string)
    : Outcome<seq<Disposition>>
  {
    var target := Or(call.repo, s.repo);
    var request := DispositionRequest(target, call.groupId, call.items, call.actor, call.source);
    var w := Writer(s.repo, call.actor, call.source, call.requireComplete);
    if s.repo == "" || target != s.repo then Refused(RepositoryConflict)
    else if key != "" && key in s.dispositionKeys then
      if s.dispositionKeys[key].0 == request then Unchanged(s.dispositionKeys[key].1) else Refused(KeyReused)
    else if Stale(s, e).Some? then Refused(Stale(s, e).value)
    else
      match TargetGroup(s, call.groupId, call.items)
      case Failed(f) => Refused(f)
      case Done(gid) =>
        match AcceptItems(s, gid, w, call.items, reader)
        case Failed(f) => Refused(f)
        case Done(a) =>
          if !LocallyAcyclic(s, s.repo, a.verified.revisions, a.rows) then Refused(BadInput)
          else
            var done := Stamped(a.rows, eventId);
            Commit(s, Refreshed(DispositionsKeyed(Applied(s, w, a.verified.group.groupId, a.rows, eventId), key,
                                                  request, done)), done)
  }

  // ---- proposals ----

  function ProposalsWith(proposals: seq<Proposal>, id: string): (r: seq<Proposal>)
    ensures forall p | p in r :: p in proposals && p.proposalId == id
  {
    if proposals == [] then [] else
      (if proposals[0].proposalId == id then [proposals[0]] else []) + ProposalsWith(proposals[1..], id)
  }

  /** `_proposal_by_id`. */
  function FindProposal(s: Store, id: string): (r: Option<Proposal>)
    ensures r.Some? ==> r.value in s.proposals && r.value.proposalId == id
  {
    var found := ProposalsWith(s.proposals, id);
    if |found| == 1 then Some(found[0]) else None
  }

  datatype DraftCall = DraftCall(repo: string, groupId: string, items: seq<Item>, canonicalPr: Option<int>,
                                 actor: string)

  function FirstTarget(rows: seq<Disposition>): Option<int> {
    if rows == [] then None
    else if rows[0].kind.Duplicate? then rows[0].duplicateOf
    else FirstTarget(rows[1..])
  }

  function Drafted(s: Store, call: DraftCall, a: Admitted, id: string): Proposal {
    var canonical := if call.canonicalPr.Some? then call.canonicalPr else FirstTarget(a.rows);
    Proposal(id, Draft, s.repo, call.groupId, canonical, a.rows, Digest(a.verified.revisions),
             a.verified.group.prNumbers,
             call.actor, "", "")
  }

  function ProposalsKeyed(s: Store, key: string, record: ProposalRecord): Store {
    if key == "" then s else s.(proposalKeys := s.proposalKeys[key := record])
  }

  /** `draft_proposal`. */
  ghost function DraftProposal(s: Store, call: DraftCall, key: string, e: Expect, reader: Reader, id: string,
                               eventId: string)
    : Outcome<Proposal>
  {
    var request := ProposalRequest("", s.repo, call.groupId, Draw, Some(call.items), call.canonicalPr, call.actor, "");
    if s.repo == "" || call.repo != s.repo then Refused(RepositoryConflict)
    else if key != "" && key in s.proposalKeys then
      var record := s.proposalKeys[key];
      if record.request != request then Refused(KeyReused)
      else if FindProposal(s, record.proposalId).Some? then Unchanged(FindProposal(s, record.proposalId).value)
      else Refused(NotFound)
    else if Stale(s, e).Some? then Refused(Stale(s, e).value)
    else
      match GroupForWrite(s, call.groupId, reader)
      case Failed(f) => Refused(f)
      case Done(v) =>
        if call.canonicalPr.Some? && call.canonicalPr.value !in v.group.prNumbers then Refused(BadInput)
        else
          match BindItems(Writer(s.repo, call.actor, "agent", false), v.group.prNumbers, v.revisions, call.items)
          case Failed(f) => Refused(f)
          case Done(rows) =>
            var p := Drafted(s, call, Admitted(v, rows), id);
            var changed := s.(proposals := s.proposals + [p],
                              proposalEvents := s.proposalEvents +
                                                [ProposalEvent(eventId, id, s.repo, Draw, call.actor, "agent", [])]);
            Commit(s, ProposalsKeyed(changed, key, ProposalRecord(request, id, None)), p)
  }

  datatype TransitionCall = TransitionCall(
    proposalId: string, action: Action, repo: string, items: Option<seq<Item>>, canonicalPr: Option<int>,
    reason: string, actor: string)

  function AsItems(rows: seq<Disposition>): (r: seq<Item>)
    ensures |r| == |rows| && forall i | 0 <= i < |r| :: r[i] == AsItem(rows[i])
  {
    seq(|rows|, i requires 0 <= i < |rows| => AsItem(rows[i]))
  }

  /** What the status of the proposal already settles: an answer, a refusal, or nothing. */
  function AlreadySettled(p: Proposal, action: Action): Option<Outcome<Proposal>> {
    match action
    case Accept => if p.status.Draft? || p.status.Edited? then None
                   else if p.status.Accepted? then Some(Unchanged(p)) else Some(Refused(ProposalConflict))
    case Edit => if p.status.Draft? || p.status.Edited? then None else Some(Refused(ProposalConflict))
    case Decline => if p.status.Accepted? then Some(Refused(ProposalConflict))
                    else if p.status.Declined? then Some(Unchanged(p)) else None
    case Draw => Some(Refused(BadInput))
  }

  function Replaced(proposals: seq<Proposal>, p: Proposal): (r: seq<Proposal>)
    ensures |r| == |proposals|
  {
    if proposals == [] then []
    else if proposals[0].proposalId == p.proposalId then [p] + proposals[1..]
    else [proposals[0]] + Replaced(proposals[1..], p)
  }

  /** Only an entry with the proposal's id is replaced. */
  lemma {:induction false} ReplacedEntries(proposals: seq<Proposal>, p: Proposal)
    ensures var r := Replaced(proposals, p);
            forall i | 0 <= i < |r| :: r[i] == proposals[i] || (proposals[i].proposalId == p.proposalId && r[i] == p)
  {
    if proposals != [] { ReplacedEntries(proposals[1..], p); }
  }

  function NextStatus(action: Action): Status {
    match action case Accept => Accepted case Edit => Edited case Decline => Declined case Draw => Draft
  }

  function Updated(p: Proposal, call: TransitionCall, rows: seq<Disposition>, eventId: string): Proposal {
    p.(status := NextStatus(call.action), items := if call.action.Decline? then p.items else rows,
       canonicalPr := if call.canonicalPr.Some? then call.canonicalPr else p.canonicalPr, lastActor := call.actor,
       decisionEventId := if call.action.Accept? then eventId else p.decisionEventId)
  }

  function TransitionRequest(s: Store, call: TransitionCall): ProposalRequest {
    ProposalRequest(call.proposalId, "", "", call.action, call.items, call.canonicalPr, call.actor, call.reason)
  }

  /** The rows of a transition, or why there are none. */
  function TransitionRows(s: Store, p: Proposal, call: TransitionCall, reader: Reader): Result<Admitted> {
    match GroupForWrite(s, p.groupId, reader)
    case Failed(f) => Failed(f)
    case Done(v) =>
      if p.groupDigest != Digest(v.revisions) || p.groupMembers != v.group.prNumbers then Failed(RevisionConflict)
      else if call.action.Decline? then (if NonBlank(call.reason) then Done(Admitted(v, [])) else Failed(BadInput))
      else
        var items := Or(call.items, AsItems(p.items));
        match BindItems(Writer(s.repo, call.actor, "human", call.action.Accept?), v.group.prNumbers, v.revisions, items)
        case Failed(f) => Failed(f)
        case Done(rows) =>
          if call.canonicalPr.Some? && call.canonicalPr.value !in v.group.prNumbers then Failed(BadInput)
          else Done(Admitted(v, rows))
  }

  /** The store a transition leads to, before the commit. */
  function Transitioned(s: Store, p: Proposal, call: TransitionCall, a: Admitted, key: string, eventId: string,
                        decisionId: string)
    : (Store, Proposal)
  {
    var w := Writer(s.repo, call.actor, "human", true);
    var rows := if call.action.Accept? then Stamped(a.rows, decisionId) else a.rows;
    var applied := if call.action.Accept? then Applied(s, w, a.verified.group.groupId, a.rows, decisionId) else s;
    var updated := Updated(p, call, rows, decisionId);
    var changed := applied.(proposals := Replaced(applied.proposals, updated),
                            proposalEvents := applied.proposalEvents +
                              [ProposalEvent(eventId, p.proposalId, s.repo, call.action, call.actor, "human", rows)]);
    (ProposalsKeyed(changed, key, ProposalRecord(TransitionRequest(s, call), p.proposalId, Some(updated))), updated)
  }

  /** `_transition_proposal`. */
  ghost function TransitionProposal(s: Store, call: TransitionCall, key: string, e: Expect, reader: Reader,
                                    eventId: string, decisionId: string): Outcome<Proposal>
  {
    if call.action.Draw? then Refused(BadInput)
    else if s.repo == "" || call.repo != s.repo then Refused(RepositoryConflict)
    else if FindProposal(s, call.proposalId).None? then Refused(NotFound)
    else
      var p := FindProposal(s, call.proposalId).value;
      if key != "" && key in s.proposalKeys then
        var record := s.proposalKeys[key];
        if record.request != TransitionRequest(s, call) then Refused(KeyReused) else Unchanged(Or(record.result, p))
      else if Stale(s, e).Some? then Refused(Stale(s, e).value)
      else if p.repo != s.repo then Refused(RepositoryConflict)
      else if AlreadySettled(p, call.action).Some? then AlreadySettled(p, call.action).value
      else
        match TransitionRows(s, p, call, reader)
        case Failed(f) => Refused(f)
        case Done(a) =>
          if call.action.Accept? && !LocallyAcyclic(s, s.repo, a.verified.revisions, a.rows) then Refused(BadInput)
          else
            var (changed, updated) := Transitioned(s, p, call, a, key, eventId, decisionId);
            Commit(s, Refreshed(changed), updated)
  }

  // ---- decisions on groups ----

  function VerdictName(v: Verdict): string {
    match v
    case Approved => "approve"
    case Rejected => "reject"
    case ForHardware => "hardware"
    case ForUpgrade => "upgrade"
  }

  function Numbered(base: string, k: nat): string { base + "-" + FormatNat(k) }

  lemma NumberedInjective(base: string, j: nat, k: nat)
    requires Numbered(base, j) == Numbered(base, k)
    ensures j == k
  {
    assert Numbered(base, j)[|base| + 1..] == FormatNat(j);
    assert Numbered(base, k)[|base| + 1..] == FormatNat(k);
    ParseFormat(j);
    ParseFormat(k);
  }

  function TakenIds(base: string, k: nat): set<string> { set j | 2 <= j < k :: Numbered(base, j) }

  lemma TakenGrows(base: string, reserved: set<string>, k: nat)
    requires k >= 2 && Numbered(base, k) in reserved
    ensures reserved - TakenIds(base, k + 1) < reserved - TakenIds(base, k)
  {
    forall j | 2 <= j < k ensures Numbered(base, j) != Numbered(base, k) {
      if Numbered(base, j) == Numbered(base, k) { NumberedInjective(base, j, k); }
    }
    assert Numbered(base, k) in TakenIds(base, k + 1);
    assert Numbered(base, k) in reserved - TakenIds(base, k);
  }

  /** The first free suffix from k on. */
  function FreeFrom(base: string, reserved: set<string>, k: nat): (id: string)
    requires k >= 2
    ensures id !in reserved
    decreases reserved - TakenIds(base, k)
  {
    if Numbered(base, k) !in reserved then Numbered(base, k) else
      TakenGrows(base, reserved, k);
      FreeFrom(base, reserved, k + 1)
  }

  function FreeRuleId(gid: string, verdict: Verdict, reserved: set<string>): (id: string)
    ensures id !in reserved
  {
    var base := "rule-" + gid + "-" + VerdictName(verdict);
    if base !in reserved then base else FreeFrom(base, reserved, 2)
  }

  method FindRuleId(gid: string, verdict: Verdict, reserved: set<string>) returns (id: string)
    ensures id == FreeRuleId(gid, verdict, reserved)
  {
    var base := "rule-" + gid + "-" + VerdictName(verdict);
    id := base;
    if id in reserved {
      var suffix := 2;
      id := Numbered(base, suffix);
      while id in reserved
        invariant suffix >= 2 && id == Numbered(base, suffix)
        invariant FreeFrom(base, reserved, suffix) == FreeRuleId(gid, verdict, reserved)
        decreases reserved - TakenIds(base, suffix)
      {
        TakenGrows(base, reserved, suffix);
        suffix := suffix + 1;
        id := Numbered(base, suffix);
      }
    }
  }

  datatype DecideCall = DecideCall(groupId: string, verdict: Verdict, expectedRepo: Option<string>, actor: string)

  function FindEvent(events: seq<DecisionEvent>, id: string): (r: Option<DecisionEvent>)
    ensures r.Some? ==> r.value in events && r.value.eventId == id
    ensures r.None? ==> forall e | e in events :: e.eventId != id
  {
    if events == [] then None
    else if events[0].eventId == id then Some(events[0])
    else FindEvent(events[1..], id)
  }

  function RuleFor(s: Store, call: DecideCall, v: Verified, eventId: string): Rule {
    Rule(FreeRuleId(call.groupId, call.verdict, s.reservedRuleIds), call.groupId, s.repo, call.verdict,
         v.group.prNumbers, v.revisions, Digest(v.revisions), v.complete, eventId, call.actor)
  }

  function EventFor(s: Store, call: DecideCall, v: Verified, eventId: string): DecisionEvent {
    DecisionEvent(eventId, s.repo, call.groupId, call.verdict, call.actor, Digest(v.revisions), v.revisions, v.complete,
                  RuleFor(s, call, v, eventId))
  }

  /** `_upsert_rule_in_data`: one rule per group and repository. */
  function Upserted(rules: seq<Rule>, rule: Rule): seq<Rule> {
    if rules == [] then [rule]
    else if rules[0].groupId == rule.groupId && rules[0].repo == rule.repo then [rule] + rules[1..]
    else [rules[0]] + Upserted(rules[1..], rule)
  }

  function Decided(s: Store, call: DecideCall, v: Verified, key: string, request: DecisionRequest,
                   eventId: string): Store {
    var rule := RuleFor(s, call, v, eventId);
    s.(decisionEvents := s.decisionEvents + [EventFor(s, call, v, eventId)],
       decisionKeys := if key == "" then s.decisionKeys else s.decisionKeys[key := (request, eventId)],
       rules := Upserted(s.rules, rule), reservedRuleIds := s.reservedRuleIds + {rule.ruleId})
  }

  /** `decide_group`. */
  ghost function Decide(s: Store, call: DecideCall, key: string, expected: Option<nat>, reader: Reader,
                        eventId: string): Outcome<Rule> {
    var request := DecisionRequest(Or(call.expectedRepo, s.repo), call.groupId, call.verdict, call.actor);
    if s.repo == "" then Refused(BadInput)
    else if key != "" && key in s.decisionKeys then
      if s.decisionKeys[key].0 != request then Refused(KeyReused)
      else
        var event := FindEvent(s.decisionEvents, s.decisionKeys[key].1);
        if event.None? then Refused(Corrupt) else Unchanged(event.value.rule)
    else if call.expectedRepo.Some? && call.expectedRepo.value != s.repo then Refused(RepositoryConflict)
    else if expected.Some? && expected.value != s.version then Refused(StaleVersion)
    else
      match VerifyGroup(s, call.groupId, reader)
      case Failed(f) => Refused(f)
      case Done(v) =>
        if call.verdict.Approved? && !v.complete then Refused(IncompleteEvidence)
        else Commit(s, Refreshed(Decided(s, call, v, key, request, eventId)), RuleFor(s, call, v, eventId))
  }
}
