/**
 The file-review writers of triage/store.py as they work: each looks its records up, builds
 the new ones and changes the file records step by step, as `FileReviews` specifies.
 */
module FileWriters {
  import opened Models
  import opened Records
  import opened FileReviews

  // ---- drafted file reviews ----

  lemma {:induction false} DraftFailsEarly(files: seq<FileRecord>, items: seq<DraftedItem>, ids: nat -> string, n: nat,
                                           m: nat)
    requires n <= m <= |items| && DraftItems(files, items, ids, n).Failed?
    ensures DraftItems(files, items, ids, m) == DraftItems(files, items, ids, n)
  {
    if n < m { DraftFailsEarly(files, items, ids, n, m - 1); }
  }

  method DraftFindings(files: seq<FileRecord>, items: seq<DraftedItem>,
                       ids: nat -> string) returns (r: Result<seq<DraftFinding>>)
    ensures r == DraftItems(files, items, ids, |items|)
  {
    hide CanonicalRecord;
    var drafted: seq<DraftFinding> := [];
    for i := 0 to |items|
      invariant Done(drafted) == DraftItems(files, items, ids, i)
    {
      var record := CanonicalRecord(files, items[i].path);
      if record.Failed? {
        DraftFailsEarly(files, items, ids, i + 1, |items|);
        return Failed(record.failure);
      }
      drafted := drafted + [DraftFinding(ids(i), record.value.path, items[i].text, Undecided, "",
                                         !record.value.patchComplete)];
    }
    r := Done(drafted);
  }

  lemma {:induction false} CoverFailsEarly(s: Store, r: FileRequest, m: Manifest, draftId: string, n: nat, k: nat)
    requires r.DraftRequest? && n <= k <= |r.coverage| && CoverItems(s, r, m, draftId, n).Failed?
    ensures CoverItems(s, r, m, draftId, k) == CoverItems(s, r, m, draftId, n)
  {
    if n < k { CoverFailsEarly(s, r, m, draftId, n, k - 1); }
  }

  method CoverageRows(s: Store, request: FileRequest, m: Manifest, draftId: string) returns (r: Result<seq<Coverage>>)
    requires request.DraftRequest?
    ensures r == CoverItems(s, request, m, draftId, |request.coverage|)
  {
    hide CanonicalRecord;
    var rows: seq<Coverage>, seen: set<string> := [], {};
    for i := 0 to |request.coverage|
      invariant Done(rows) == CoverItems(s, request, m, draftId, i)
      invariant forall path :: path in seen <==> path in CoveredPaths(rows)
    {
      var item := request.coverage[i];
      var record := CanonicalRecord(m.files, item.path);
      if record.Failed? {
        CoverFailsEarly(s, request, m, draftId, i + 1, |request.coverage|);
        return Failed(record.failure);
      }
      if record.value.path in seen || (item.status.Inspected? && !record.value.hasPatch) {
        CoverFailsEarly(s, request, m, draftId, i + 1, |request.coverage|);
        return Failed(BadInput);
      }
      var row := Coverage(s.repo, request.pr, record.value.path, m.revision, item.status, request.actor, draftId);
      assert CoveredPaths(rows + [row]) == CoveredPaths(rows) + [row.path];
      rows, seen := rows + [row], seen + {row.path};
    }
    r := Done(rows);
  }

  /** The checks and records of `draft_file_review`. */
  method PrepareDraft(s: Store, request: FileRequest, reader: ManifestReader, ids: Fresh) returns (r: Result<Change>)
    requires request.DraftRequest?
    ensures r == DraftReview(s, request, reader, ids)
  {
    hide DraftItems, CoverItems, ReviewEvidence, WithoutCovered, CoveredPaths;
    if (request.findings == [] && request.coverage == []) || |request.findings| > MAX_DRAFT_FINDINGS
       || |request.coverage| > MAX_DRAFT_COVERAGE
    {
      return Failed(BadInput);
    }
    var evidence := ReviewEvidence(s, request.pr, reader);
    if evidence.Failed? {
      return Failed(evidence.failure);
    }
    var m := evidence.value;
    if !RightRevision(request.revision, m.revision) {
      return Failed(RevisionConflict);
    }
    var drafted := DraftFindings(m.files, request.findings, ids.item);
    if drafted.Failed? {
      return Failed(drafted.failure);
    }
    var covered := CoverageRows(s, request, m, ids.recordId);
    if covered.Failed? {
      return Failed(covered.failure);
    }
    var files := s.files;
    var draft := FileDraft(ids.recordId, s.repo, request.pr, m.revision, drafted.value, CoveredPaths(covered.value),
                           request.actor);
    files := files.(drafts := files.drafts + [draft]);
    files := files.(coverage := WithoutCovered(files.coverage, covered.value) + covered.value);
    r := Done(Change(files, ADraft(draft)));
  }

  // ---- human reviews and findings ----

  lemma OneReviewOn(reviews: seq<FileReview>, review: FileReview, i: nat, others: seq<FileReview>)
    requires i < |reviews|
    ensures others + WithoutReview(reviews[i..], review) ==
            (if SameFile(reviews[i], review) then others else others + [reviews[i]]) +
            WithoutReview(reviews[i + 1..], review)
  {
    hide SameFile;
    var rest := WithoutReview(reviews[i + 1..], review);
    assert reviews[i..][1..] == reviews[i + 1..];
    assert others + ([reviews[i]] + rest) == (others + [reviews[i]]) + rest && others + ([] + rest) == others + rest;
  }

  /** The reviews that are not about the same file and revision. */
  method OtherReviews(reviews: seq<FileReview>, review: FileReview) returns (others: seq<FileReview>)
    ensures others == WithoutReview(reviews, review)
  {
    hide SameFile, WithoutReview;
    others := [];
    ghost var all := WithoutReview(reviews, review);
    assert reviews[0..] == reviews && [] + all == all;
    for i := 0 to |reviews|
      invariant others + WithoutReview(reviews[i..], review) == all
    {
      OneReviewOn(reviews, review, i, others);
      if !SameFile(reviews[i], review) {
        others := others + [reviews[i]];
      }
    }
    NoReviews(review);
    assert reviews[|reviews|..] == [] && others + [] == others;
  }

  lemma NoReviews(review: FileReview)
    ensures WithoutReview([], review) == []
  {}

  /** The evidence and the manifest entry that a human write is bound to. */
  method BindTarget(s: Store, pr: int, path: string, supplied: Option<RevisionKey>, reader: ManifestReader)
    returns (r: Result<Target>)
    ensures r == ReviewTarget(s, pr, path, supplied, reader)
  {
    hide ReviewEvidence, CanonicalRecord;
    var evidence := ReviewEvidence(s, pr, reader);
    if evidence.Failed? {
      return Failed(evidence.failure);
    }
    if supplied.Some? && supplied.value != KeyOf(evidence.value.revision) {
      return Failed(RevisionConflict);
    }
    var record := CanonicalRecord(evidence.value.files, path);
    if record.Failed? {
      return Failed(record.failure);
    }
    r := Done(Target(evidence.value.revision, record.value));
  }

  /** The changes of `save_file_review`. */
  method PrepareReview(s: Store, request: FileRequest, reader: ManifestReader, ids: Fresh) returns (r: Result<Change>)
    requires request.ReviewRequest?
    ensures r == Review(s, request, reader, ids)
  {
    hide ReviewTarget, WithoutReview;
    var target := BindTarget(s, request.pr, request.path, request.revision, reader);
    if target.Failed? {
      return Failed(target.failure);
    }
    var bound, record := target.value.revision, target.value.record;
    if request.reviewed && !record.patchComplete {
      return Failed(IncompleteEvidence);
    }
    var review := FileReview(s.repo, request.pr, record.path, bound, request.reviewed, request.actor, ids.eventId,
                             request.note,
                             record.digest);
    var others := OtherReviews(s.files.reviews, review);
    r := Done(Change(s.files.(reviews := others + [review]), AReview(review)));
  }

  /** The changes of `save_file_finding`. */
  method PrepareFinding(s: Store, request: FileRequest, reader: ManifestReader, ids: Fresh) returns (r: Result<Change>)
    requires request.FindingRequest?
    ensures r == AddFinding(s, request, reader, ids)
  {
    hide ReviewTarget;
    var target := BindTarget(s, request.pr, request.path, request.revision, reader);
    if target.Failed? {
      return Failed(target.failure);
    }
    var bound, record := target.value.revision, target.value.record;
    var finding := Finding(ids.recordId, s.repo, request.pr, record.path, bound, request.text, Open, ByHuman,
                           request.actor, "",
                           !record.patchComplete, record.digest);
    r := Done(Change(s.files.(findings := s.files.findings + [finding]), AFinding(finding)));
  }

  /** The positions with an id, of which there must be one. */
  method LocateId(ids: seq<string>, id: string) returns (r: Result<nat>)
    ensures r == Locate(ids, id)
  {
    var matches: seq<nat> := [];
    for i := 0 to |ids|
      invariant matches == Positions(ids, id, i)
    {
      if ids[i] == id {
        matches := matches + [i];
      }
    }
    if |matches| != 1 {
      return if matches == [] then Failed(NotFound) else Failed(Corrupt);
    }
    r := Done(matches[0]);
  }

  /** The changes of `update_file_finding`. */
  method PrepareStatus(s: Store, request: FileRequest) returns (r: Result<Change>)
    requires request.StatusRequest?
    ensures r == SetStatus(s, request)
  {
    hide Positions;
    var rows := s.files.findings;
    var index := LocateId(FindingIds(rows), request.findingId);
    if index.Failed? {
      return Failed(index.failure);
    }
    var finding := rows[index.value];
    if finding.repo != s.repo {
      return Failed(RepositoryConflict);
    }
    var updated := finding.(status := request.status);
    rows := rows[index.value := updated];
    r := Done(Change(s.files.(findings := rows), AFinding(updated)));
  }

  // ---- adoption ----

  /** The first drafted finding with an id. */
  method SelectDrafted(findings: seq<DraftFinding>, id: string) returns (selected: Option<DraftFinding>)
    ensures selected == FindDrafted(findings, id)
  {
    assert findings[0..] == findings;
    for i := 0 to |findings|
      invariant FindDrafted(findings[i..], id) == FindDrafted(findings, id)
    {
      assert findings[i..][1..] == findings[i + 1..];
      if findings[i].draftFindingId == id {
        return Some(findings[i]);
      }
    }
    selected := None;
  }

  /** The draft with the decided finding in place of every one with its id. */
  method DecideIn(draft: FileDraft, decided: DraftFinding) returns (updated: FileDraft)
    ensures updated == draft.(findings := Replacing(draft.findings, decided))
  {
    var findings: seq<DraftFinding> := [];
    for i := 0 to |draft.findings|
      invariant findings == Replacing(draft.findings, decided)[..i]
    {
      findings := findings + [if draft.findings[i].draftFindingId == decided.draftFindingId then decided
                              else draft.findings[i]];
    }
    updated := draft.(findings := findings);
  }

  /** The changes of `adopt_draft_finding`: a decided finding is answered, an accepted one becomes a finding. */
  method PrepareAdoption(s: Store, request: FileRequest, reader: ManifestReader,
                         ids: Fresh) returns (r: Result<Adoption>)
    requires request.AdoptRequest?
    ensures r == Adopt(s, request, reader, ids)
  {
    hide Positions, FindDrafted, Replacing, ReviewEvidence, CanonicalRecord;
    var files := s.files;
    var index := LocateId(DraftIds(files.drafts), request.draftId);
    if index.Failed? {
      return Failed(index.failure);
    }
    var draft := files.drafts[index.value];
    if draft.repo != s.repo {
      return Failed(RepositoryConflict);
    }
    var selected := SelectDrafted(draft.findings, request.draftFindingId);
    if selected.None? {
      return Failed(NotFound);
    }
    var drafted := selected.value;
    if !drafted.status.Undecided? {
      return Done(Settled(draft));
    }
    var evidence := ReviewEvidence(s, draft.pr, reader);
    if evidence.Failed? {
      return Failed(evidence.failure);
    }
    var m := evidence.value;
    if KeyOf(draft.revision) != KeyOf(m.revision) {
      return Failed(RevisionConflict);
    }
    var created: Option<Finding> := None;
    if request.accept {
      var record := CanonicalRecord(m.files, drafted.path);
      if record.Failed? {
        return Failed(record.failure);
      }
      created := Some(Finding(ids.recordId, s.repo, draft.pr, record.value.path, m.revision, drafted.text, Open,
                              FromDraft(request.draftId, request.draftFindingId), draft.author, request.actor,
                              !record.value.patchComplete, record.value.digest));
      files := files.(findings := files.findings + [created.value]);
    }
    var decided := drafted.(status := if request.accept then Adopted(ids.recordId) else TurnedDown,
                            decidedBy := request.actor);
    var updated := DecideIn(draft, decided);
    files := files.(drafts := files.drafts[index.value := updated]);
    r := Done(Changed(Change(files, AnAdoption(updated, created, true))));
  }

  function AsAdoption(change: Result<Change>): Result<Adoption> {
    if change.Failed? then Failed(change.failure) else Done(Changed(change.value))
  }

  /** What the writer of this kind of request does with the records. */
  method Prepare(s: Store, request: FileRequest, reader: ManifestReader, ids: Fresh) returns (r: Result<Adoption>)
    ensures r == ChangeOf(s, request, reader, ids)
  {
    hide Review, AddFinding, SetStatus, DraftReview, Adopt;
    var change: Result<Change>;
    match request {
      case ReviewRequest(_, _, _, _, _, _, _) => change := PrepareReview(s, request, reader, ids);
      case FindingRequest(_, _, _, _, _, _) => change := PrepareFinding(s, request, reader, ids);
      case StatusRequest(_, _, _, _) => change := PrepareStatus(s, request);
      case DraftRequest(_, _, _, _, _, _) => change := PrepareDraft(s, request, reader, ids);
      case AdoptRequest(_, _, _, _, _) =>
        r := PrepareAdoption(s, request, reader, ids);
        return;
    }
    r := AsAdoption(change);
  }
}
