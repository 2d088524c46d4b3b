/**
 What holds of file reviews over every run: accepted drafted findings and the findings
 created from them correspond one to one, decided drafted findings never change again, and
 agents and humans write different records.
 */
module FileRuns {
  import opened Models
  import opened Records
  import opened GroupEvidence
  import opened Stores
  import opened FileReviews
  import opened StoreRuns
  import opened StoreSafety

  // ---- drafted findings and what came of them ----

  /** Draft, drafted finding and created finding that belong together. */
  datatype Link = Link(draftId: string, draftFindingId: string, findingId: string)

  /** The acceptances that the drafts record. */
  ghost function AcceptedLinks(drafts: seq<FileDraft>): set<Link> {
    set d, i | d in drafts && 0 <= i < |d.findings| && d.findings[i].status.Adopted? ::
      Link(d.draftId, d.findings[i].draftFindingId, d.findings[i].status.findingId)
  }

  function LinkOf(f: Finding): Link
    requires f.origin.FromDraft?
  {
    Link(f.origin.draftId, f.origin.draftFindingId, f.findingId)
  }

  /** The adoptions that the findings record. */
  ghost function FindingLinks(findings: seq<Finding>): set<Link> {
    set f | f in findings && f.origin.FromDraft? :: LinkOf(f)
  }

  ghost predicate DistinctItems(d: FileDraft) {
    forall i, j | 0 <= i < j < |d.findings| :: d.findings[i].draftFindingId != d.findings[j].draftFindingId
  }

  ghost predicate Linked(f: FileState) {
    && AcceptedLinks(f.drafts) == FindingLinks(f.findings)
    && (forall d | d in f.drafts :: DistinctItems(d))
    && UniqueIds(DraftIds(f.drafts)) && UniqueIds(FindingIds(f.findings))
  }

  lemma AppendLinks(findings: seq<Finding>, f: Finding)
    ensures FindingLinks(findings + [f]) ==
              FindingLinks(findings) + (if f.origin.FromDraft? then {LinkOf(f)} else {})
  {
    forall l
      ensures l in FindingLinks(findings + [f]) <==>
                (l in FindingLinks(findings) || (f.origin.FromDraft? && l == LinkOf(f)))
    {
      if l in FindingLinks(findings) {
        var g :| g in findings && g.origin.FromDraft? && LinkOf(g) == l;
        assert g in findings + [f];
      }
      if f.origin.FromDraft? { assert f in findings + [f]; }
    }
  }

  lemma StatusKeepsLinks(findings: seq<Finding>, i: nat, status: FindingStatus)
    requires i < |findings|
    ensures FindingLinks(findings[i := findings[i].(status := status)]) == FindingLinks(findings)
  {
    var after := findings[i := findings[i].(status := status)];
    forall l
      ensures l in FindingLinks(after) <==> l in FindingLinks(findings)
    {
      if l in FindingLinks(findings) {
        var g :| g in findings && g.origin.FromDraft? && LinkOf(g) == l;
        var k :| 0 <= k < |findings| && findings[k] == g;
        assert after[k] in after && after[k].origin == g.origin && after[k].findingId == g.findingId;
      }
      if l in FindingLinks(after) {
        var g :| g in after && g.origin.FromDraft? && LinkOf(g) == l;
        var k :| 0 <= k < |after| && after[k] == g;
        assert findings[k] in findings && findings[k].origin == g.origin && findings[k].findingId == g.findingId;
      }
    }
  }

  lemma NewDraftLinks(drafts: seq<FileDraft>, d: FileDraft)
    requires forall i | 0 <= i < |d.findings| :: d.findings[i].status.Undecided?
    ensures AcceptedLinks(drafts + [d]) == AcceptedLinks(drafts)
  {
    forall l
      ensures l in AcceptedLinks(drafts + [d]) <==> l in AcceptedLinks(drafts)
    {
      if l in AcceptedLinks(drafts) {
        var e, i :| e in drafts && 0 <= i < |e.findings| && e.findings[i].status.Adopted?
          && l == Link(e.draftId, e.findings[i].draftFindingId, e.findings[i].status.findingId);
        assert e in drafts + [d];
      }
    }
  }

  /** What one draft contributes. */
  ghost function LinksOfDraft(d: FileDraft): set<Link> {
    set i | 0 <= i < |d.findings| && d.findings[i].status.Adopted? ::
      Link(d.draftId, d.findings[i].draftFindingId, d.findings[i].status.findingId)
  }

  lemma LinksByDraft(drafts: seq<FileDraft>, l: Link)
    ensures l in AcceptedLinks(drafts) <==> exists k :: 0 <= k < |drafts| && l in LinksOfDraft(drafts[k])
  {
    if l in AcceptedLinks(drafts) {
      var d, i :| d in drafts && 0 <= i < |d.findings| && d.findings[i].status.Adopted?
        && l == Link(d.draftId, d.findings[i].draftFindingId, d.findings[i].status.findingId);
      var k :| 0 <= k < |drafts| && drafts[k] == d;
      assert l in LinksOfDraft(drafts[k]);
    }
    if exists k :: 0 <= k < |drafts| && l in LinksOfDraft(drafts[k]) {
      var k :| 0 <= k < |drafts| && l in LinksOfDraft(drafts[k]);
      assert drafts[k] in drafts;
    }
  }

  lemma DecidedDraftLinks(d: FileDraft, i: nat, decided: DraftFinding)
    requires DistinctItems(d) && i < |d.findings| && d.findings[i].status.Undecided?
    requires decided.draftFindingId == d.findings[i].draftFindingId && !decided.status.Undecided?
    ensures var d' := d.(findings := Replacing(d.findings, decided));
            && DistinctItems(d') && d'.findings == d.findings[i := decided]
            && LinksOfDraft(d') == LinksOfDraft(d) +
               (if decided.status.Adopted? then {Link(d.draftId, decided.draftFindingId, decided.status.findingId)}
                else {})
  {
    var d' := d.(findings := Replacing(d.findings, decided));
    assert forall j | 0 <= j < |d.findings| && j != i :: d.findings[j].draftFindingId != decided.draftFindingId;
    assert d'.findings == d.findings[i := decided];
    forall l
      ensures l in LinksOfDraft(d') <==>
                (l in LinksOfDraft(d) ||
                 (decided.status.Adopted? && l == Link(d.draftId, decided.draftFindingId, decided.status.findingId)))
    {
      if l in LinksOfDraft(d) {
        var j :| 0 <= j < |d.findings| && d.findings[j].status.Adopted?
          && l == Link(d.draftId, d.findings[j].draftFindingId, d.findings[j].status.findingId);
        assert j != i && d'.findings[j] == d.findings[j];
      }
      if decided.status.Adopted? { assert d'.findings[i] == decided; }
    }
  }

  lemma DecisionLinks(f: FileState, k: nat, i: nat, decided: DraftFinding, created: Option<Finding>)
    requires k < |f.drafts| && DistinctItems(f.drafts[k]) && i < |f.drafts[k].findings|
             && f.drafts[k].findings[i].status.Undecided?
    requires decided.draftFindingId == f.drafts[k].findings[i].draftFindingId && !decided.status.Undecided?
    requires AcceptedLinks(f.drafts) == FindingLinks(f.findings)
    requires decided.status.Adopted? <==> created.Some?
    requires created.Some? ==> created.value.origin == FromDraft(f.drafts[k].draftId, decided.draftFindingId)
                               && created.value.findingId == decided.status.findingId
    ensures var f' := WithDecision(f, k, decided, created).files;
            AcceptedLinks(f'.drafts) == FindingLinks(f'.findings)
  {
    hide DistinctItems, Replacing, LinksOfDraft, AcceptedLinks;
    var f' := WithDecision(f, k, decided, created).files;
    DecidedDraftLinks(f.drafts[k], i, decided);
    if created.Some? { AppendLinks(f.findings, created.value); }
    var added := if created.Some? then {LinkOf(created.value)} else {};
    forall l
      ensures l in AcceptedLinks(f'.drafts) <==> l in AcceptedLinks(f.drafts) + added
    {
      LinksByDraft(f.drafts, l);
      LinksByDraft(f'.drafts, l);
      if l in AcceptedLinks(f.drafts) {
        var j :| 0 <= j < |f.drafts| && l in LinksOfDraft(f.drafts[j]);
        assert l in LinksOfDraft(f'.drafts[j]);
      }
      if l in added { assert l in LinksOfDraft(f'.drafts[k]); }
    }
  }

  // ---- one step ----

  lemma {:induction false} DrawnIndex(findings: seq<DraftFinding>, id: string) returns (i: nat)
    requires FindDrafted(findings, id).Some?
    ensures i < |findings| && findings[i] == FindDrafted(findings, id).value
  {
    if findings[0].draftFindingId == id {
      i := 0;
    } else {
      i := DrawnIndex(findings[1..], id);
      i := i + 1;
    }
  }

  /** An adoption that changes something decides one pending drafted finding of one draft. */
  lemma AdoptionShape(s: Store, r: FileRequest, reader: ManifestReader, ids: Fresh)
    returns (k: nat, i: nat, decided: DraftFinding, created: Option<Finding>)
    requires r.AdoptRequest? && Adopt(s, r, reader, ids).Done? && Adopt(s, r, reader, ids).value.Changed?
    ensures k < |s.files.drafts| && i < |s.files.drafts[k].findings| && s.files.drafts[k].findings[i].status.Undecided?
    ensures decided.draftFindingId == s.files.drafts[k].findings[i].draftFindingId && !decided.status.Undecided?
    ensures (decided.status.Adopted? <==> created.Some?) && (created.Some? <==> r.accept)
    ensures created.Some? ==> created.value.origin == FromDraft(s.files.drafts[k].draftId, decided.draftFindingId)
                              && created.value.findingId == decided.status.findingId
                              && created.value.adoptedBy == r.actor
                              && created.value.author == s.files.drafts[k].author
                              && created.value.text == s.files.drafts[k].findings[i].text
    ensures Adopt(s, r, reader, ids).value.change == WithDecision(s.files, k, decided, created)
  {
    hide ReviewEvidence, CanonicalRecord, Locate, FindDrafted, WithDecision;
    k := Locate(DraftIds(s.files.drafts), r.draftId).value;
    var draft := s.files.drafts[k];
    i := DrawnIndex(draft.findings, r.draftFindingId);
    var drafted := draft.findings[i];
    var m := ReviewEvidence(s, draft.pr, reader).value;
    if r.accept {
      var record := CanonicalRecord(m.files, drafted.path).value;
      decided := drafted.(status := Adopted(ids.recordId), decidedBy := r.actor);
      created := Some(AdoptedFinding(s, r, draft, drafted, m, record, ids.recordId));
    } else {
      decided, created := drafted.(status := TurnedDown, decidedBy := r.actor), None;
    }
  }

  lemma ChangeKeepsLinks(s: Store, r: FileRequest, reader: ManifestReader, ids: Fresh)
    requires AcceptedLinks(s.files.drafts) == FindingLinks(s.files.findings)
    requires forall d | d in s.files.drafts :: DistinctItems(d)
    requires forall i: nat, j: nat | ids.item(i) == ids.item(j) :: i == j
    requires ChangeOf(s, r, reader, ids).Done? && ChangeOf(s, r, reader, ids).value.Changed?
    ensures var f := ChangeOf(s, r, reader, ids).value.change.files;
            AcceptedLinks(f.drafts) == FindingLinks(f.findings) && forall d | d in f.drafts :: DistinctItems(d)
  {
    hide AcceptedLinks, FindingLinks, ReviewTarget, ReviewEvidence, CanonicalRecord, Locate, WithoutReview, CoverItems,
         DraftItems, WithoutCovered, Adopt, WithDecision;
    var f := ChangeOf(s, r, reader, ids).value.change.files;
    match r
    case ReviewRequest(_, _, _, _, _, _, _) =>
    case FindingRequest(_, _, _, _, _, _) =>
      AppendLinks(s.files.findings, f.findings[|s.files.findings|]);
    case StatusRequest(_, _, _, _) =>
      StatusKeepsLinks(s.files.findings, Locate(FindingIds(s.files.findings), r.findingId).value, r.status);
    case DraftRequest(_, _, _, _, _, _) =>
      NewDraftLinks(s.files.drafts, f.drafts[|s.files.drafts|]);
    case AdoptRequest(_, _, _, _, _) =>
      var k, i, decided, created := AdoptionShape(s, r, reader, ids);
      assert s.files.drafts[k] in s.files.drafts;
      DecisionLinks(s.files, k, i, decided, created);
      DecidedDraftLinks(s.files.drafts[k], i, decided);
      DecisionKeepsDistinct(s.files, k, i, decided, created);
  }

  lemma DecisionKeepsDistinct(f: FileState, k: nat, i: nat, decided: DraftFinding, created: Option<Finding>)
    requires k < |f.drafts| && (forall d | d in f.drafts :: DistinctItems(d))
    requires DistinctItems(f.drafts[k].(findings := Replacing(f.drafts[k].findings, decided)))
    ensures forall d | d in WithDecision(f, k, decided, created).files.drafts :: DistinctItems(d)
  {
    hide DistinctItems, Replacing;
  }

  lemma StepKeepsLinked(s: Store, c: Command)
    requires Linked(s.files) && FreshIds(s, c)
    ensures Linked(Step(s, c).files)
  {
    hide Publish, SaveDispositions, DraftProposal, TransitionProposal, Decide, QueueOf, Applied, Upserted, Replaced,
         AcceptItems, TransitionRows, ChangeOf, AcceptedLinks, FindingLinks, DistinctItems, Advances, TransitionEffect;
    match c
    case DoPublish(p, e) =>
      if Publish(s, p, e).Committed? { PublishFrame(s, p, e); }
    case DoDispositions(call, key, e, reader, id) =>
      if SaveDispositions(s, call, key, e, reader, id).Committed? {
        var gid, a := DispositionsFrame(s, call, key, e, reader, id);
      }
    case DoDraft(call, key, e, reader, id, eventId) =>
      if DraftProposal(s, call, key, e, reader, id, eventId).Committed? {
        DraftFrame(s, call, key, e, reader, id, eventId);
      }
    case DoTransition(call, key, e, reader, eventId, decisionId) =>
      if TransitionProposal(s, call, key, e, reader, eventId, decisionId).Committed? {
        TransitionKeepsFiles(s, call, key, e, reader, eventId, decisionId);
      }
    case DoDecide(call, key, expected, reader, id) =>
      if Decide(s, call, key, expected, reader, id).Committed? {
        var v := DecideFrame(s, call, key, expected, reader, id);
      }
    case DoFile(r, key, e, manifests, ids) =>
      if WriteFile(s, r, key, e, manifests, ids).Committed? { ChangeKeepsLinks(s, r, manifests, ids); }
  }

  lemma TransitionKeepsFiles(s: Store, call: TransitionCall, key: string, e: Expect, reader: Reader, eventId: string,
                             decisionId: string)
    requires TransitionProposal(s, call, key, e, reader, eventId, decisionId).Committed?
    ensures TransitionProposal(s, call, key, e, reader, eventId, decisionId).store.files == s.files
  {
    hide TransitionProposal, TransitionRows, Applied, Replaced;
    var p, a := TransitionFrame(s, call, key, e, reader, eventId, decisionId);
  }

  lemma {:induction false} RunKeepsLinked(s: Store, commands: seq<Command>)
    requires Linked(s.files) && FreshRun(s, commands)
    ensures Linked(Run(s, commands).files)
    decreases |commands|
  {
    hide Linked, Step, FreshIds;
    if commands != [] {
      StepKeepsLinked(s, commands[0]);
      RunKeepsLinked(Step(s, commands[0]), commands[1..]);
    }
  }

  /**
   In every reachable store each accepted drafted finding has exactly one finding created
   from it, and each such finding belongs to exactly one accepted drafted finding.
   */
  lemma AdoptionIsOneToOne(commands: seq<Command>, a: Link, b: Link)
    requires FreshRun(EMPTY_STORE, commands)
    ensures var f := Run(EMPTY_STORE, commands).files;
            && AcceptedLinks(f.drafts) == FindingLinks(f.findings)
            && (a in AcceptedLinks(f.drafts) && b in AcceptedLinks(f.drafts) ==>
                  (a.findingId == b.findingId <==> a.draftId == b.draftId && a.draftFindingId == b.draftFindingId))
  {
    hide Run, FreshRun;
    assert Linked(EMPTY_STORE.files);
    RunKeepsLinked(EMPTY_STORE, commands);
    LinksAreInjective(Run(EMPTY_STORE, commands).files, a, b);
  }

  lemma LinksAreInjective(f: FileState, a: Link, b: Link)
    requires Linked(f)
    ensures a in AcceptedLinks(f.drafts) && b in AcceptedLinks(f.drafts) ==>
              (a.findingId == b.findingId <==> a.draftId == b.draftId && a.draftFindingId == b.draftFindingId)
  {
    if a in AcceptedLinks(f.drafts) && b in AcceptedLinks(f.drafts) {
      if a.findingId == b.findingId { SameFinding(f, a, b); }
      if a.draftId == b.draftId && a.draftFindingId == b.draftFindingId { SameDrafted(f, a, b); }
    }
  }

  lemma SameFinding(f: FileState, a: Link, b: Link)
    requires Linked(f) && a in FindingLinks(f.findings) && b in FindingLinks(f.findings) && a.findingId == b.findingId
    ensures a == b
  {
    hide AcceptedLinks;
    var x :| x in f.findings && x.origin.FromDraft? && LinkOf(x) == a;
    var y :| y in f.findings && y.origin.FromDraft? && LinkOf(y) == b;
    var i :| 0 <= i < |f.findings| && f.findings[i] == x;
    var j :| 0 <= j < |f.findings| && f.findings[j] == y;
    assert FindingIds(f.findings)[i] == FindingIds(f.findings)[j];
  }

  lemma SameDrafted(f: FileState, a: Link, b: Link)
    requires Linked(f) && a in AcceptedLinks(f.drafts) && b in AcceptedLinks(f.drafts)
    requires a.draftId == b.draftId && a.draftFindingId == b.draftFindingId
    ensures a == b
  {
    hide FindingLinks, AcceptedLinks;
    LinksByDraft(f.drafts, a);
    LinksByDraft(f.drafts, b);
    var k :| 0 <= k < |f.drafts| && a in LinksOfDraft(f.drafts[k]);
    var l :| 0 <= l < |f.drafts| && b in LinksOfDraft(f.drafts[l]);
    assert DraftIds(f.drafts)[k] == DraftIds(f.drafts)[l];
    assert DistinctItems(f.drafts[k]);
  }

  // ---- decided drafted findings ----

  /** Decided drafted findings of earlier drafts are where and what they were. */
  ghost predicate DecidedStay(f: FileState, f': FileState) {
    && |f.drafts| <= |f'.drafts|
    && (forall k | 0 <= k < |f.drafts| ::
          f'.drafts[k].draftId == f.drafts[k].draftId && |f'.drafts[k].findings| == |f.drafts[k].findings|)
    && forall k, i | 0 <= k < |f.drafts| && 0 <= i < |f.drafts[k].findings|
       && !f.drafts[k].findings[i].status.Undecided? ::
         f'.drafts[k].findings[i] == f.drafts[k].findings[i]
  }

  lemma DecisionKeepsDecided(f: FileState, k: nat, i: nat, decided: DraftFinding, created: Option<Finding>)
    requires k < |f.drafts| && DistinctItems(f.drafts[k]) && i < |f.drafts[k].findings|
             && f.drafts[k].findings[i].status.Undecided?
    requires decided.draftFindingId == f.drafts[k].findings[i].draftFindingId && !decided.status.Undecided?
    ensures DecidedStay(f, WithDecision(f, k, decided, created).files)
  {
    DecidedDraftLinks(f.drafts[k], i, decided);
  }

  lemma ChangeKeepsDecided(s: Store, r: FileRequest, reader: ManifestReader, ids: Fresh)
    requires forall d | d in s.files.drafts :: DistinctItems(d)
    requires ChangeOf(s, r, reader, ids).Done? && ChangeOf(s, r, reader, ids).value.Changed?
    ensures DecidedStay(s.files, ChangeOf(s, r, reader, ids).value.change.files)
  {
    hide ReviewTarget, ReviewEvidence, CanonicalRecord, Locate, WithoutReview, CoverItems, DraftItems, WithoutCovered,
         Adopt, WithDecision, DistinctItems;
    if r.AdoptRequest? {
      var k, i, decided, created := AdoptionShape(s, r, reader, ids);
      assert s.files.drafts[k] in s.files.drafts;
      DecisionKeepsDecided(s.files, k, i, decided, created);
    }
  }

  lemma StepKeepsDecided(s: Store, c: Command)
    requires Linked(s.files)
    ensures DecidedStay(s.files, Step(s, c).files)
  {
    hide Publish, SaveDispositions, DraftProposal, TransitionProposal, Decide, QueueOf, Applied, Upserted, Replaced,
         AcceptItems, TransitionRows, ChangeOf, AcceptedLinks, FindingLinks, DistinctItems;
    match c
    case DoPublish(p, e) =>
      if Publish(s, p, e).Committed? { PublishFrame(s, p, e); }
    case DoDispositions(call, key, e, reader, id) =>
      if SaveDispositions(s, call, key, e, reader, id).Committed? {
        var gid, a := DispositionsFrame(s, call, key, e, reader, id);
      }
    case DoDraft(call, key, e, reader, id, eventId) =>
      if DraftProposal(s, call, key, e, reader, id, eventId).Committed? {
        DraftFrame(s, call, key, e, reader, id, eventId);
      }
    case DoTransition(call, key, e, reader, eventId, decisionId) =>
      if TransitionProposal(s, call, key, e, reader, eventId, decisionId).Committed? {
        TransitionKeepsFiles(s, call, key, e, reader, eventId, decisionId);
      }
    case DoDecide(call, key, expected, reader, id) =>
      if Decide(s, call, key, expected, reader, id).Committed? {
        var v := DecideFrame(s, call, key, expected, reader, id);
      }
    case DoFile(r, key, e, manifests, ids) =>
      if WriteFile(s, r, key, e, manifests, ids).Committed? { ChangeKeepsDecided(s, r, manifests, ids); }
  }

  /** A decided drafted finding never changes again, over every run. */
  lemma {:induction false} RunKeepsDecided(s: Store, commands: seq<Command>)
    requires Linked(s.files) && FreshRun(s, commands)
    ensures DecidedStay(s.files, Run(s, commands).files)
    decreases |commands|
  {
    hide Linked, Step, FreshIds;
    if commands != [] {
      StepKeepsLinked(s, commands[0]);
      StepKeepsDecided(s, commands[0]);
      RunKeepsDecided(Step(s, commands[0]), commands[1..]);
    }
  }

  // ---- who writes what ----

  /** An agent's draft adds proposed findings and coverage: no review, no finding, no decision of any kind. */
  lemma AgentDraftsDecideNothing(s: Store, r: FileRequest, key: string, e: Expect, reader: ManifestReader, ids: Fresh)
    requires r.DraftRequest? && WriteFile(s, r, key, e, reader, ids).Committed?
    ensures var o := WriteFile(s, r, key, e, reader, ids);
            && o.store.files.reviews == s.files.reviews && o.store.files.findings == s.files.findings
            && s.files.drafts <= o.store.files.drafts
            && o.store.dispositions == s.dispositions && o.store.rules == s.rules && o.store.proposals == s.proposals
            && o.store.queue == s.queue
            && o.value.ADraft? && forall i | 0 <= i < |o.value.draft.findings| ::
                 o.value.draft.findings[i].status.Undecided?
  {
    hide ValidStore, ReviewEvidence, CoverItems, DraftItems, WithoutCovered;
  }

  /** The manifest entry that a path addresses: by its current name, and only then by the one before a rename. */
  ghost predicate Addresses(files: seq<FileRecord>, path: string, record: FileRecord) {
    && record in files && record.path != ""
    && (record.path == path || (record.previousPath == path && forall x | x in files :: x.path != path))
  }

  /** Drafted findings, one for each submitted one, about the entries that their paths address. */
  ghost predicate DraftsItems(files: seq<FileRecord>, items: seq<DraftedItem>, findings: seq<DraftFinding>) {
    && |findings| == |items|
    && forall i | 0 <= i < |items| :: findings[i].status.Undecided? && DraftsItem(files, items[i], findings[i])
  }

  ghost predicate DraftsItem(files: seq<FileRecord>, item: DraftedItem, finding: DraftFinding) {
    && finding.text == item.text
    && exists record :: Addresses(files, item.path, record) && finding.path == record.path
                        && finding.aboutMissingPatch == !record.patchComplete
  }

  lemma {:induction false} DraftedItemsAre(files: seq<FileRecord>, items: seq<DraftedItem>, ids: nat -> string, n: nat)
    requires n <= |items| && DraftItems(files, items, ids, n).Done?
    ensures DraftsItems(files, items[..n], DraftItems(files, items, ids, n).value)
  {
    hide CanonicalRecord;
    if n > 0 {
      DraftedItemsAre(files, items, ids, n - 1);
      CanonicalIsListed(files, items[n - 1].path);
      var record := CanonicalRecord(files, items[n - 1].path).value;
      assert Addresses(files, items[n - 1].path, record);
      assert items[..n][..n - 1] == items[..n - 1];
      forall i | 0 <= i < n - 1
        ensures DraftsItem(files, items[..n][i], DraftItems(files, items, ids, n).value[i])
      {
        assert items[..n][i] == items[..n - 1][i];
      }
    }
  }

  /** Coverage rows, one for each submitted one, of different entries; an inspected file has a patch. */
  ghost predicate CoversItems(s: Store, r: FileRequest, m: Manifest, n: nat, rows: seq<Coverage>)
    requires r.DraftRequest? && n <= |r.coverage|
  {
    && |rows| == n && UniqueIds(CoveredPaths(rows))
    && forall i | 0 <= i < n :: CoversItem(s, r, m, r.coverage[i], rows[i])
  }

  ghost predicate CoversItem(s: Store, r: FileRequest, m: Manifest, item: CoveredItem, row: Coverage)
    requires r.DraftRequest?
  {
    && row.repo == s.repo && row.pr == r.pr && row.revision == m.revision && row.status == item.status
    && row.actor == r.actor
    && exists record :: Addresses(m.files, item.path, record) && row.path == record.path
                        && (item.status.Inspected? ==> record.hasPatch)
  }

  lemma {:induction false} CoveredItemsAre(s: Store, r: FileRequest, m: Manifest, draftId: string, n: nat)
    requires r.DraftRequest? && n <= |r.coverage| && CoverItems(s, r, m, draftId, n).Done?
    ensures CoversItems(s, r, m, n, CoverItems(s, r, m, draftId, n).value)
  {
    hide CanonicalRecord, UniqueIds, CoveredPaths;
    if n > 0 {
      CoveredItemsAre(s, r, m, draftId, n - 1);
      CanonicalIsListed(m.files, r.coverage[n - 1].path);
      var record := CanonicalRecord(m.files, r.coverage[n - 1].path).value;
      assert Addresses(m.files, r.coverage[n - 1].path, record);
    }
  }

  /**
   A committed draft holds one pending finding and one coverage row for each submitted one, bound to
   the entries and the revision that were read; only coverage of the same files is replaced.
   */
  lemma DraftIsBound(s: Store, r: FileRequest, key: string, e: Expect, reader: ManifestReader, ids: Fresh)
    returns (m: Manifest, rows: seq<Coverage>)
    requires r.DraftRequest? && WriteFile(s, r, key, e, reader, ids).Committed?
    ensures ReviewEvidence(s, r.pr, reader) == Done(m) && CoversItems(s, r, m, |r.coverage|, rows)
    ensures var o := WriteFile(s, r, key, e, reader, ids);
            && o.value.ADraft? && o.store.files.drafts == s.files.drafts + [o.value.draft]
            && var draft := o.value.draft;
            && draft.repo == s.repo && draft.pr == r.pr && draft.revision == m.revision && draft.author == r.actor
            && DraftsItems(m.files, r.findings, draft.findings) && draft.coveragePaths == CoveredPaths(rows)
            && forall c :: c in o.store.files.coverage <==>
                 || c in rows
                 || (c in s.files.coverage && !exists d | d in rows ::
                       c.repo == d.repo && c.pr == d.pr && c.path == d.path && SameContent(c.revision, d.revision))
  {
    hide ValidStore, ReviewEvidence, CoverItems, DraftItems, WithoutCovered, CoversItem, DraftsItem, SameContent,
         UniqueIds, CoveredPaths;
    m := ReviewEvidence(s, r.pr, reader).value;
    rows := CoverItems(s, r, m, ids.recordId, |r.coverage|).value;
    DraftedItemsAre(m.files, r.findings, ids.item, |r.findings|);
    assert r.findings[..|r.findings|] == r.findings;
    CoveredItemsAre(s, r, m, ids.recordId, |r.coverage|);
  }

  /** A committed file write adds one event: its request, under its id, by an agent exactly when it is a draft. */
  lemma FileWriteIsLogged(s: Store, r: FileRequest, key: string, e: Expect, reader: ManifestReader, ids: Fresh)
    requires WriteFile(s, r, key, e, reader, ids).Committed?
    ensures WriteFile(s, r, key, e, reader, ids).store.files.events ==
              s.files.events + [FileEvent(ids.eventId, r, if r.DraftRequest? then "agent" else "human")]
  {
    hide ValidStore, ChangeOf;
    ChangeKeepsLog(s, r, reader, ids);
  }

  /** A human file write never touches dispositions, rules, proposals or the queue; only a review changes reviews. */
  lemma FileWritesDecideNothing(s: Store, r: FileRequest, key: string, e: Expect, reader: ManifestReader, ids: Fresh)
    requires WriteFile(s, r, key, e, reader, ids).Committed?
    ensures var s' := WriteFile(s, r, key, e, reader, ids).store;
            && s' == s.(version := s.version + 1, files := s'.files)
            && (!r.ReviewRequest? ==> s'.files.reviews == s.files.reviews)
            && (r.ReviewRequest? && r.reviewed ==>
                  ReviewTarget(s, r.pr, r.path, r.revision, reader).Done?
                  && ReviewTarget(s, r.pr, r.path, r.revision, reader).value.record.patchComplete)
  {
    hide ValidStore, ReviewTarget, ReviewEvidence, CanonicalRecord, Locate, CoverItems, DraftItems, WithoutCovered,
         FindDrafted, WithoutReview;
  }

  /**
   A committed review or finding is about one manifest entry, under its current path, at the
   revision that was read.
   */
  lemma FileRecordsAreBound(s: Store, r: FileRequest, key: string, e: Expect, reader: ManifestReader, ids: Fresh)
    returns (m: Manifest, record: FileRecord)
    requires (r.ReviewRequest? || r.FindingRequest?) && WriteFile(s, r, key, e, reader, ids).Committed?
    ensures ReviewEvidence(s, r.pr, reader) == Done(m)
    ensures r.revision.Some? ==>
              && r.revision.value.headSha == m.revision.headSha && r.revision.value.baseSha == m.revision.baseSha
              && r.revision.value.contentDigest == m.revision.contentDigest
    ensures record in m.files && record.path != ""
    ensures record.path == r.path || (record.previousPath == r.path && forall x | x in m.files :: x.path != r.path)
    ensures r.ReviewRequest? && r.reviewed ==> record.patchComplete
    ensures var o := WriteFile(s, r, key, e, reader, ids);
            if r.ReviewRequest? then
              o.value.AReview? && var review := o.value.review;
              && (review.repo, review.pr, review.path, review.reviewed) == (s.repo, r.pr, record.path, r.reviewed)
              && review.revision == m.revision && review.digest == record.digest && review.actor == r.actor
              && (forall x :: x in o.store.files.reviews <==>
                    x == review
                    || (x in s.files.reviews && !(x.repo == review.repo && x.pr == review.pr && x.path == review.path
                                                  && SameContent(x.revision, review.revision))))
            else
              o.value.AFinding? && var finding := o.value.finding;
              && (finding.repo, finding.pr, finding.path, finding.text) == (s.repo, r.pr, record.path, r.text)
              && finding.revision == m.revision && finding.status.Open? && finding.origin.ByHuman?
              && finding.author == r.actor
              && finding.aboutMissingPatch == !record.patchComplete
              && o.store.files.findings == s.files.findings + [finding]
  {
    hide ValidStore, ReviewEvidence, SameFile, SameContent, CanonicalRecord;
    m := ReviewEvidence(s, r.pr, reader).value;
    record := CanonicalRecord(m.files, r.path).value;
    CanonicalIsListed(m.files, r.path);
  }

  lemma CanonicalIsListed(files: seq<FileRecord>, path: string)
    requires CanonicalRecord(files, path).Done?
    ensures var record := CanonicalRecord(files, path).value;
            && record in files && record.path != ""
            && (record.path == path || (record.previousPath == path && forall x | x in files :: x.path != path))
  {
    ByPathIsListed(files, path);
  }

  lemma {:induction false} ByPathIsListed(files: seq<FileRecord>, path: string)
    ensures ByPath(files, path).Some? ==> ByPath(files, path).value in files && ByPath(files, path).value.path == path
    ensures ByPath(files, path).None? ==> forall x | x in files :: x.path != path
    ensures ByPreviousPath(files, path).Some? ==>
              ByPreviousPath(files, path).value in files && ByPreviousPath(files, path).value.previousPath == path
  {
    if files != [] { ByPathIsListed(files[1..], path); }
  }
}
