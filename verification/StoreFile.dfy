/**
 The store file itself: each writer of triage/store.py loads the data, changes it step by
 step and commits it, or leaves the file as it was. Every method is proved against its
 guarded step in `Stores` and `FileReviews`; holding the file lock makes it one step.
 */
module StoreFiles {
  import opened Order
  import opened Models
  import opened Duplicates
  import opened Records
  import opened GroupEvidence
  import opened Active
  import opened Queues
  import opened Stores
  import opened FileReviews
  import opened FileWriters

  function Reply<T>(o: Outcome<T>): Result<T> {
    match o case Committed(_, value) => Done(value) case Unchanged(value) => Done(value) case Refused(f) => Failed(f)
  }

  // ---- validation ----

  /** `_check_duplicate_cycles`: whether the rows on top of the existing ones are free of cycles. */
  method CheckDuplicateCycles(incoming: seq<Disposition>, existing: map<int, Disposition>) returns (ok: bool)
    ensures ok <==> Acyclic(EdgesFrom(EdgesOf(existing), incoming))
  {
    hide Acyclic;
    var graph := EdgesOf(existing);
    for i := 0 to |incoming|
      invariant graph == EdgesFrom(EdgesOf(existing), incoming[..i])
    {
      var d := incoming[i];
      assert incoming[..i + 1][..i] == incoming[..i];
      if PointsOn(d) {
        graph := graph[d.pr := d.duplicateOf.value];
      } else {
        graph := graph - {d.pr};
      }
    }
    assert incoming[..|incoming|] == incoming;
    var cyclic := HasCycle(graph, SortedInts(graph.Keys));
    ok := !cyclic;
  }

  method AllDifferent(ids: seq<string>) returns (ok: bool)
    ensures ok <==> UniqueIds(ids)
  {
    var seen: set<string> := {};
    for i := 0 to |ids|
      invariant forall x :: x in seen <==> x in ids[..i]
      invariant UniqueIds(ids[..i])
    {
      if ids[i] in seen {
        var k :| 0 <= k < i && ids[k] == ids[i];
        return false;
      }
      assert ids[..i + 1] == ids[..i] + [ids[i]];
      seen := seen + {ids[i]};
    }
    assert ids[..|ids|] == ids;
    ok := true;
  }

  method ProposalsValid(proposals: seq<Proposal>) returns (ok: bool)
    ensures ok <==> forall p | p in proposals ::
              p.proposalId != "" && p.repo != "" && p.groupId != "" && AcyclicRows(p.items)
  {
    hide AcyclicRows;
    for i := 0 to |proposals|
      invariant forall p | p in proposals[..i] ::
                  p.proposalId != "" && p.repo != "" && p.groupId != "" && AcyclicRows(p.items)
    {
      var p := proposals[i];
      assert proposals[..i + 1] == proposals[..i] + [p];
      var acyclic := RowsValid(p.items);
      if p.proposalId == "" || p.repo == "" || p.groupId == "" || !acyclic {
        assert p in proposals;
        return false;
      }
    }
    assert proposals[..|proposals|] == proposals;
    ok := true;
  }

  method RowsValid(rows: seq<Disposition>) returns (ok: bool)
    ensures ok <==> AcyclicRows(rows)
  {
    ok := CheckDuplicateCycles(rows, map[]);
    assert EdgesOf(map[]) == map[];
  }

  /** `_validate_review_records`: every file record names its repository. */
  method AllNamed(f: FileState) returns (ok: bool)
    ensures ok <==> (forall r | r in f.reviews :: r.repo != "") && (forall c | c in f.coverage :: c.repo != "")
                    && (forall x | x in f.findings :: x.repo != "") && (forall d | d in f.drafts :: d.repo != "")
  {
    if exists r | r in f.reviews :: r.repo == "" {
      return false;
    }
    if exists c | c in f.coverage :: c.repo == "" {
      return false;
    }
    if exists x | x in f.findings :: x.repo == "" {
      return false;
    }
    ok := !exists d | d in f.drafts :: d.repo == "";
  }

  /** `_validate_store`. */
  method Validate(s: Store) returns (ok: bool)
    ensures ok <==> ValidStore(s)
  {
    hide AcyclicRows, UniqueIds;
    if exists g | g in s.groups :: g.groupId == "" {
      return false;
    }
    var named := AllNamed(s.files);
    if !named {
      return false;
    }
    if s.version > MAX_SAFE_INTEGER || s.snapshotVersion > MAX_SAFE_INTEGER {
      return false;
    }
    var events := AllDifferent(EventIds(s.decisionEvents));
    if !events || exists e | e in s.decisionEvents :: "" in {e.eventId, e.repo, e.groupId, e.actor} {
      return false;
    }
    if exists k | k in s.decisionKeys :: k == "" || s.decisionKeys[k].1 !in EventIds(s.decisionEvents) {
      return false;
    }
    var rows := RowsValid(s.dispositions);
    if !rows || exists d | d in s.dispositions :: d.pr <= 0 || d.repo == "" || d.reason == "" || |d.reason| > 1000 {
      return false;
    }
    var proposals := ProposalsValid(s.proposals);
    var findings := AllDifferent(FindingIds(s.files.findings));
    var drafts := AllDifferent(DraftIds(s.files.drafts));
    ok := proposals && findings && drafts;
  }

  // ---- pieces of the writers ----

  lemma UpsertedFrom(rules: seq<Rule>, rule: Rule, i: nat)
    requires i < |rules|
    ensures rules[..i] + Upserted(rules[i..], rule) ==
            if rules[i].groupId == rule.groupId && rules[i].repo == rule.repo then rules[i := rule]
            else rules[..i + 1] + Upserted(rules[i + 1..], rule)
  {
    assert rules[i..][1..] == rules[i + 1..];
    assert rules[i := rule] == rules[..i] + ([rule] + rules[i + 1..]);
    assert rules[..i] + ([rules[i]] + Upserted(rules[i + 1..], rule)) ==
             rules[..i + 1] + Upserted(rules[i + 1..], rule);
  }

  lemma UpsertedIntoNothing(rule: Rule)
    ensures Upserted([], rule) == [rule]
  {}

  /** `_upsert_rule_in_data`. */
  method UpsertRule(rules: seq<Rule>, rule: Rule) returns (r: seq<Rule>)
    ensures r == Upserted(rules, rule)
  {
    hide Upserted;
    assert rules[..0] + Upserted(rules, rule) == Upserted(rules, rule) && rules[0..] == rules;
    for i := 0 to |rules|
      invariant Upserted(rules, rule) == rules[..i] + Upserted(rules[i..], rule)
    {
      UpsertedFrom(rules, rule, i);
      if rules[i].groupId == rule.groupId && rules[i].repo == rule.repo {
        return rules[i := rule];
      }
    }
    UpsertedIntoNothing(rule);
    r := rules + [rule];
    assert rules[|rules|..] == [] && rules[..|rules|] == rules;
  }

  lemma ReplacedFrom(proposals: seq<Proposal>, p: Proposal, i: nat)
    requires i < |proposals|
    ensures proposals[..i] + Replaced(proposals[i..], p) ==
            if proposals[i].proposalId == p.proposalId then proposals[i := p]
            else proposals[..i + 1] + Replaced(proposals[i + 1..], p)
  {
    assert proposals[i..][1..] == proposals[i + 1..];
    assert proposals[i := p] == proposals[..i] + ([p] + proposals[i + 1..]);
    assert proposals[..i] + ([proposals[i]] + Replaced(proposals[i + 1..], p)) ==
             proposals[..i + 1] + Replaced(proposals[i + 1..], p);
  }

  /** `_update_proposal_unlocked`. */
  method UpdateProposal(proposals: seq<Proposal>, p: Proposal) returns (r: seq<Proposal>)
    ensures r == Replaced(proposals, p)
  {
    hide Replaced;
    assert proposals[..0] + Replaced(proposals, p) == Replaced(proposals, p) && proposals[0..] == proposals;
    for i := 0 to |proposals|
      invariant Replaced(proposals, p) == proposals[..i] + Replaced(proposals[i..], p)
    {
      ReplacedFrom(proposals, p, i);
      if proposals[i].proposalId == p.proposalId {
        return proposals[i := p];
      }
    }
    r := proposals;
    assert proposals[|proposals|..] == [] && proposals[..|proposals|] == proposals && |Replaced([], p)| == 0;
  }

  method ListRows(active: map<int, Disposition>) returns (rows: seq<Disposition>)
    requires forall n | n in active :: active[n].pr == n
    ensures |rows| == |active| && forall i, j | 0 <= i < j < |rows| :: rows[i].pr != rows[j].pr
    ensures forall d :: d in rows <==> d.pr in active && active[d.pr] == d
  {
    var numbers := SortedInts(active.Keys);
    rows := [];
    for i := 0 to |numbers|
      invariant |rows| == i && forall j | 0 <= j < i :: numbers[j] in active && rows[j] == active[numbers[j]]
    {
      assert numbers[i] in active.Keys;
      rows := rows + [active[numbers[i]]];
    }
    forall d
      ensures d in rows <==> d.pr in active && active[d.pr] == d
    {
      if d.pr in active && active[d.pr] == d {
        assert d.pr in numbers;
        var j :| 0 <= j < |numbers| && numbers[j] == d.pr;
        assert rows[j] == d;
      }
    }
  }

  lemma ActiveOfAgain(rows: seq<Disposition>, current: Revisions, repo: string, source: string, again: seq<Disposition>)
    requires var active := ActiveOf(rows, current, repo, source);
             && (forall i, j | 0 <= i < j < |again| :: again[i].pr != again[j].pr)
             && forall d :: d in again <==> d.pr in active && active[d.pr] == d
    ensures ActiveOf(again, current, repo, source) == ActiveOf(rows, current, repo, source)
  {
    var key := ActiveSource(source, current);
    if repo != "" && key in {"fixtures", "github"} {
      ActiveAgain(rows, repo, Usable(current, key), again);
    }
  }

  lemma NoRowsActive(current: Revisions, repo: string, source: string)
    ensures ActiveOf([], current, repo, source) == map[]
  {}

  /** `_refresh_queue_in_data`. */
  method RefreshQueue(s: Store) returns (queue: Piles)
    ensures queue == QueueOf(s)
  {
    hide PilesOf, ActiveOf, CurrentRevisions;
    var current := CurrentRevisions(s.prs, s.repo, s.source);
    var active := ActiveDispositions(s.dispositions, current, s.repo, s.source);
    ActiveFiled(s.dispositions, current, s.repo, s.source);
    var rows := ListRows(active);
    queue := BuildQueue(s.groups, RulesFor(s.rules, s.repo), s.repo, rows, current, s.source);
    if s.repo != "" {
      ActiveOfAgain(s.dispositions, current, s.repo, s.source, rows);
    } else {
      NoRepoActive(s.dispositions, current, s.source);
      NoRowsActive(current, QueueRepo(s.groups, s.repo), s.source);
    }
  }

  lemma NoRepoActive(rows: seq<Disposition>, current: Revisions, source: string)
    ensures ActiveOf(rows, current, "", source) == map[]
  {}

  lemma ActiveFiled(rows: seq<Disposition>, current: Revisions, repo: string, source: string)
    ensures var active := ActiveOf(rows, current, repo, source); forall n | n in active :: active[n].pr == n
  {}

  // ---- the file ----

  class StoreFile {
    var store: Store

    constructor ()
      ensures store == EMPTY_STORE
    {
      store := EMPTY_STORE;
    }

    /** `_next_version` and `_commit_store_unlocked`: the file is replaced by valid data or not at all. */
    method CommitData<T>(data: Store, value: T) returns (r: Result<T>)
      modifies this
      ensures r == Reply(Commit(old(store), data, value))
              && store == StoreAfter(old(store), Commit(old(store), data, value))
    {
      hide ValidStore;
      if store.version >= MAX_SAFE_INTEGER {
        return Failed(VersionExhausted);
      }
      var next := data.(version := store.version + 1);
      var ok := Validate(next);
      if !ok {
        return Failed(Corrupt);
      }
      store := next;
      r := Done(value);
    }

    /** `save_run_state`. */
    method SaveRunState(p: Publication, e: Expect) returns (r: Result<()>)
      modifies this
      ensures r == Reply(Publish(old(store), p, e)) && store == StoreAfter(old(store), Publish(old(store), p, e))
    {
      hide ValidStore;
      var data := store;
      if Stale(data, e).Some? {
        return Failed(Stale(data, e).value);
      }
      var active := Or(p.repo, data.repo);
      data := data.(groups := OfRepo(p.groups, active));
      if p.prs.Some? { data := data.(prs := p.prs.value); }
      if p.source.Some? { data := data.(source := p.source.value); }
      if p.repo.Some? { data := data.(repo := active); }
      if p.queue.Some? { data := data.(queue := p.queue.value); }
      if active != "" { data := data.(groupsByRepo := data.groupsByRepo[active := data.groups]); }
      if data.version >= MAX_SAFE_INTEGER || data.snapshotVersion >= MAX_SAFE_INTEGER {
        return Failed(VersionExhausted);
      }
      data := data.(snapshotVersion := data.snapshotVersion + 1);
      assert data == Published(store, p);
      r := CommitData(data, ());
    }

    /** `save_dispositions`. */
    method SaveDispositions(call: DispositionCall, key: string, e: Expect, reader: Reader, eventId: string)
      returns (r: Result<seq<Disposition>>)
      modifies this
      ensures var o := Stores.SaveDispositions(old(store), call, key, e, reader, eventId);
              r == Reply(o) && store == StoreAfter(old(store), o)
    {
      hide ValidStore, QueueOf, GroupForWrite, BindItems, TargetGroup, Commit, Stamped, WithoutRows, EdgesFrom, Acyclic;
      var data := store;
      var target := Or(call.repo, data.repo);
      if data.repo == "" || target != data.repo {
        return Failed(RepositoryConflict);
      }
      var request := DispositionRequest(target, call.groupId, call.items, call.actor, call.source);
      if key != "" && key in data.dispositionKeys {
        if data.dispositionKeys[key].0 != request {
          return Failed(KeyReused);
        }
        return Done(data.dispositionKeys[key].1);
      }
      if Stale(data, e).Some? {
        return Failed(Stale(data, e).value);
      }
      var gid := TargetGroup(data, call.groupId, call.items);
      if gid.Failed? {
        return Failed(gid.failure);
      }
      var v := GroupForWrite(data, gid.value, reader);
      if v.Failed? {
        return Failed(v.failure);
      }
      var w := Writer(data.repo, call.actor, call.source, call.requireComplete);
      var rows := NormalizeItems(w, v.value.group.prNumbers, v.value.revisions, call.items);
      if rows.Failed? {
        return Failed(rows.failure);
      }
      var ok := CheckDuplicateCycles(rows.value, CurrentRows(data.dispositions, data.repo, v.value.revisions));
      if !ok {
        return Failed(BadInput);
      }
      var done := Stamped(rows.value, eventId);
      data := Applied(data, w, v.value.group.groupId, rows.value, eventId);
      if key != "" {
        data := data.(dispositionKeys := data.dispositionKeys[key := (request, done)]);
      }
      var queue := RefreshQueue(data);
      data := data.(queue := queue);
      r := CommitData(data, done);
    }

    /** `draft_proposal`. */
    method DraftProposal(call: DraftCall, key: string, e: Expect, reader: Reader, id: string, eventId: string)
      returns (r: Result<Proposal>)
      modifies this
      ensures var o := Stores.DraftProposal(old(store), call, key, e, reader, id, eventId);
              r == Reply(o) && store == StoreAfter(old(store), o)
    {
      hide ValidStore, GroupForWrite, BindItems, Commit, Digest, FirstTarget, ProposalsWith;
      var data := store;
      if data.repo == "" || call.repo != data.repo {
        return Failed(RepositoryConflict);
      }
      var request := ProposalRequest("", data.repo, call.groupId, Draw, Some(call.items), call.canonicalPr, call.actor,
                                     "");
      if key != "" && key in data.proposalKeys {
        var record := data.proposalKeys[key];
        if record.request != request {
          return Failed(KeyReused);
        }
        var prior := FindProposal(data, record.proposalId);
        return if prior.Some? then Done(prior.value) else Failed(NotFound);
      }
      if Stale(data, e).Some? {
        return Failed(Stale(data, e).value);
      }
      var v := GroupForWrite(data, call.groupId, reader);
      if v.Failed? {
        return Failed(v.failure);
      }
      if call.canonicalPr.Some? && call.canonicalPr.value !in v.value.group.prNumbers {
        return Failed(BadInput);
      }
      var rows := NormalizeItems(Writer(data.repo, call.actor, "agent", false), v.value.group.prNumbers,
                                 v.value.revisions, call.items);
      if rows.Failed? {
        return Failed(rows.failure);
      }
      var proposal := Drafted(data, call, Admitted(v.value, rows.value), id);
      data := data.(proposals := data.proposals + [proposal]);
      data := data.(proposalEvents :=
                      data.proposalEvents + [ProposalEvent(eventId, id, data.repo, Draw, call.actor, "agent", [])]);
      if key != "" {
        data := data.(proposalKeys := data.proposalKeys[key := ProposalRecord(request, id, None)]);
      }
      r := CommitData(data, proposal);
    }

    /** The checks of `_transition_proposal` after its guards, on the group the proposal is about. */
    method PrepareTransition(data: Store, p: Proposal, call: TransitionCall,
                             reader: Reader) returns (a: Result<Admitted>)
      ensures a == TransitionRows(data, p, call, reader)
    {
      hide GroupForWrite, BindItems, Digest;
      var v := GroupForWrite(data, p.groupId, reader);
      if v.Failed? {
        return Failed(v.failure);
      }
      if p.groupDigest != Digest(v.value.revisions) || p.groupMembers != v.value.group.prNumbers {
        return Failed(RevisionConflict);
      }
      if call.action.Decline? {
        return if NonBlank(call.reason) then Done(Admitted(v.value, [])) else Failed(BadInput);
      }
      var items := Or(call.items, AsItems(p.items));
      var rows := NormalizeItems(Writer(data.repo, call.actor, "human", call.action.Accept?), v.value.group.prNumbers,
                                 v.value.revisions, items);
      if rows.Failed? {
        return Failed(rows.failure);
      }
      if call.canonicalPr.Some? && call.canonicalPr.value !in v.value.group.prNumbers {
        return Failed(BadInput);
      }
      a := Done(Admitted(v.value, rows.value));
    }

    /** The changes of `_transition_proposal`, one after the other. */
    method PerformTransition(before: Store, p: Proposal, call: TransitionCall, a: Admitted, key: string,
                             eventId: string, decisionId: string)
      returns (data: Store, updated: Proposal)
      ensures (data, updated) == Transitioned(before, p, call, a, key, eventId, decisionId)
    {
      hide Stamped, WithoutRows, Replaced;
      data := before;
      var rows := a.rows;
      if call.action.Accept? {
        rows := Stamped(a.rows, decisionId);
        data := Applied(data, Writer(before.repo, call.actor, "human", true), a.verified.group.groupId, a.rows,
                        decisionId);
      }
      updated := Updated(p, call, rows, decisionId);
      var proposals := UpdateProposal(data.proposals, updated);
      data := data.(proposals := proposals);
      data := data.(proposalEvents := data.proposalEvents +
                      [ProposalEvent(eventId, p.proposalId, before.repo, call.action, call.actor, "human", rows)]);
      if key != "" {
        data := data.(proposalKeys :=
          data.proposalKeys[key := ProposalRecord(TransitionRequest(before, call), p.proposalId, Some(updated))]);
      }
    }

    /** `_transition_proposal`: accept, edit or reject. */
    method TransitionProposal(call: TransitionCall, key: string, e: Expect, reader: Reader, eventId: string,
                              decisionId: string)
      returns (r: Result<Proposal>)
      modifies this
      ensures var o := Stores.TransitionProposal(old(store), call, key, e, reader, eventId, decisionId);
              r == Reply(o) && store == StoreAfter(old(store), o)
    {
      hide ValidStore, QueueOf, TransitionRows, Commit, ProposalsWith, Transitioned, EdgesFrom, Acyclic;
      var data := store;
      if call.action.Draw? {
        return Failed(BadInput);
      }
      if data.repo == "" || call.repo != data.repo {
        return Failed(RepositoryConflict);
      }
      var found := FindProposal(data, call.proposalId);
      if found.None? {
        return Failed(NotFound);
      }
      var p := found.value;
      if key != "" && key in data.proposalKeys {
        var record := data.proposalKeys[key];
        if record.request != TransitionRequest(data, call) {
          return Failed(KeyReused);
        }
        return Done(Or(record.result, p));
      }
      if Stale(data, e).Some? {
        return Failed(Stale(data, e).value);
      }
      if p.repo != data.repo {
        return Failed(RepositoryConflict);
      }
      if AlreadySettled(p, call.action).Some? {
        return Reply(AlreadySettled(p, call.action).value);
      }
      var a := PrepareTransition(data, p, call, reader);
      if a.Failed? {
        return Failed(a.failure);
      }
      if call.action.Accept? {
        var ok := CheckDuplicateCycles(a.value.rows,
                                       CurrentRows(data.dispositions, data.repo, a.value.verified.revisions));
        if !ok {
          return Failed(BadInput);
        }
      }
      var updated;
      data, updated := PerformTransition(data, p, call, a.value, key, eventId, decisionId);
      var queue := RefreshQueue(data);
      data := data.(queue := queue);
      r := CommitData(data, updated);
    }

    /** `decide_group`. */
    method DecideGroup(call: DecideCall, key: string, expected: Option<nat>, reader: Reader,
                       eventId: string) returns (r: Result<Rule>)
      modifies this
      ensures var o := Decide(old(store), call, key, expected, reader, eventId);
              r == Reply(o) && store == StoreAfter(old(store), o)
    {
      hide ValidStore, QueueOf, VerifyGroup, Commit, FreeRuleId, Digest, Upserted, FindEvent;
      var data := store;
      if data.repo == "" {
        return Failed(BadInput);
      }
      var request := DecisionRequest(Or(call.expectedRepo, data.repo), call.groupId, call.verdict, call.actor);
      if key != "" && key in data.decisionKeys {
        if data.decisionKeys[key].0 != request {
          return Failed(KeyReused);
        }
        var event := FindEvent(data.decisionEvents, data.decisionKeys[key].1);
        return if event.Some? then Done(event.value.rule) else Failed(Corrupt);
      }
      if call.expectedRepo.Some? && call.expectedRepo.value != data.repo {
        return Failed(RepositoryConflict);
      }
      if expected.Some? && expected.value != data.version {
        return Failed(StaleVersion);
      }
      var v := VerifyGroup(data, call.groupId, reader);
      if v.Failed? {
        return Failed(v.failure);
      }
      if call.verdict.Approved? && !v.value.complete {
        return Failed(IncompleteEvidence);
      }
      var ruleId := FindRuleId(call.groupId, call.verdict, data.reservedRuleIds);
      var digest := Digest(v.value.revisions);
      var rule := Rule(ruleId, call.groupId, data.repo, call.verdict, v.value.group.prNumbers, v.value.revisions,
                       digest,
                       v.value.complete, eventId, call.actor);
      data := data.(decisionEvents := data.decisionEvents +
        [DecisionEvent(eventId, data.repo, call.groupId, call.verdict, call.actor, digest, v.value.revisions,
                       v.value.complete, rule)]);
      if key != "" {
        data := data.(decisionKeys := data.decisionKeys[key := (request, eventId)]);
      }
      var rules := UpsertRule(data.rules, rule);
      data := data.(rules := rules, reservedRuleIds := data.reservedRuleIds + {ruleId});
      var queue := RefreshQueue(data);
      data := data.(queue := queue);
      r := CommitData(data, rule);
    }

    /** The five file writers share their guards, their log and their commit. */
    method WriteFile(request: FileRequest, key: string, e: Expect, reader: ManifestReader,
                     ids: Fresh) returns (r: Result<FileAnswer>)
      modifies this
      ensures var o := FileReviews.WriteFile(old(store), request, key, e, reader, ids);
              r == Reply(o) && store == StoreAfter(old(store), o)
    {
      hide ValidStore, Commit, ChangeOf;
      var data := store;
      if Guard(data, request, key, e).Some? {
        return Reply(Guard(data, request, key, e).value);
      }
      var change := Prepare(data, request, reader, ids);
      if change.Failed? {
        return Failed(change.failure);
      }
      if change.value.Settled? {
        return Done(AnAdoption(change.value.draft, None, false));
      }
      var c := change.value.change;
      data := data.(files := c.files);
      data := data.(files :=
                      data.files.(events := data.files.events + [FileEvent(ids.eventId, request, SourceOf(request))]));
      if key != "" {
        data := data.(files := data.files.(keys := data.files.keys[key := (request, c.answer)]));
      }
      r := CommitData(data, c.answer);
    }
  }
}
