/**
 The file-review writers of triage/store.py: human reviews and findings, agent drafts, and
 the adoption of a drafted finding. A request carries what its caller submits; the supplied
 revision is represented by the identity that is compared.
 */
module FileReviews {
  import opened Models
  import opened Records
  import opened GroupEvidence
  import opened Stores

  const MAX_DRAFT_FINDINGS: nat := 100
  const MAX_DRAFT_COVERAGE: nat := 500

  // ---- evidence of one file ----

  datatype FileRecord = FileRecord(path: string, previousPath: string, hasPatch: bool, patchComplete: bool,
                                   digest: string)

  /** What the pinned evidence of a pull request says. */
  datatype Manifest = Manifest(revision: RevisionEvidence, files: seq<FileRecord>)

  type ManifestReader = PrRow -> Result<Manifest>

  /** `_pr_review_evidence`. */
  function ReviewEvidence(s: Store, pr: int, reader: ManifestReader): Result<Manifest> {
    if exists i, j | 0 <= i < j < |s.prs| :: s.prs[i].number == s.prs[j].number then Failed(Corrupt)
    else if RowsOf(s.prs, pr) == [] then Failed(NotFound)
    else reader(RowsOf(s.prs, pr)[0])
  }

  function ByPath(files: seq<FileRecord>, path: string): Option<FileRecord> {
    if files == [] then None else if files[0].path == path then Some(files[0]) else ByPath(files[1..], path)
  }

  function ByPreviousPath(files: seq<FileRecord>, path: string): Option<FileRecord> {
    if files == [] then None
    else if files[0].previousPath == path then Some(files[0])
    else ByPreviousPath(files[1..], path)
  }

  /** `_canonical_file_record`: by current path first, then by the path before a rename. */
  function CanonicalRecord(files: seq<FileRecord>, path: string): Result<FileRecord> {
    var found := if ByPath(files, path).Some? then ByPath(files, path) else ByPreviousPath(files, path);
    if found.None? then Failed(BadInput)
    else if found.value.path == "" then Failed(Corrupt)
    else Done(found.value)
  }

  predicate RightRevision(supplied: Option<RevisionKey>, revision: RevisionEvidence) {
    supplied.None? || supplied.value == KeyOf(revision)
  }

  datatype Target = Target(revision: RevisionEvidence, record: FileRecord)

  /** `_review_target`. */
  function ReviewTarget(s: Store, pr: int, path: string, supplied: Option<RevisionKey>,
                        reader: ManifestReader): Result<Target> {
    match ReviewEvidence(s, pr, reader)
    case Failed(f) => Failed(f)
    case Done(m) =>
      if !RightRevision(supplied, m.revision) then Failed(RevisionConflict)
      else
        match CanonicalRecord(m.files, path)
        case Failed(f) => Failed(f)
        case Done(record) => Done(Target(m.revision, record))
  }

  // ---- what all file writers share ----

  /** Repository, then recorded answer, then versions. */
  function Guard(s: Store, request: FileRequest, key: string, e: Expect): Option<Outcome<FileAnswer>> {
    if s.repo == "" || request.repo != s.repo then Some(Refused(RepositoryConflict))
    else if key != "" && key in s.files.keys then
      Some(if s.files.keys[key].0 == request then Unchanged(s.files.keys[key].1) else Refused(KeyReused))
    else if Stale(s, e).Some? then Some(Refused(Stale(s, e).value))
    else None
  }

  /** One more event and, for a keyed request, its recorded answer. */
  function Recorded(f: FileState, request: FileRequest, key: string, eventId: string, source: string,
                    answer: FileAnswer): FileState {
    f.(events := f.events + [FileEvent(eventId, request, source)],
       keys := if key == "" then f.keys else f.keys[key := (request, answer)])
  }

  /** The fresh identifiers of one call. */
  datatype Fresh = Fresh(eventId: string, recordId: string, item: nat -> string)

  datatype Change = Change(files: FileState, answer: FileAnswer)

  // ---- human reviews and findings ----

  /** Head, base and content are the same. */
  predicate SameContent(a: RevisionEvidence, b: RevisionEvidence) {
    a.headSha == b.headSha && a.baseSha == b.baseSha && a.contentDigest == b.contentDigest
  }

  predicate SameFile(a: FileReview, b: FileReview) {
    a.repo == b.repo && a.pr == b.pr && a.path == b.path && KeyOf(a.revision) == KeyOf(b.revision)
  }

  function WithoutReview(reviews: seq<FileReview>, review: FileReview): (r: seq<FileReview>)
    ensures forall x :: x in r <==>
              x in reviews && !(x.repo == review.repo && x.pr == review.pr && x.path == review.path
                                && SameContent(x.revision, review.revision))
  {
    if reviews == [] then [] else
      (if SameFile(reviews[0], review) then [] else [reviews[0]]) + WithoutReview(reviews[1..], review)
  }

  /** `save_file_review`: only a file with complete patch evidence can be marked reviewed. */
  function Review(s: Store, r: FileRequest, reader: ManifestReader, ids: Fresh): Result<Change>
    requires r.ReviewRequest?
  {
    match ReviewTarget(s, r.pr, r.path, r.revision, reader)
    case Failed(f) => Failed(f)
    case Done(t) =>
      if r.reviewed && !t.record.patchComplete then Failed(IncompleteEvidence)
      else
        var review := FileReview(s.repo, r.pr, t.record.path, t.revision, r.reviewed, r.actor, ids.eventId, r.note,
                                 t.record.digest);
        Done(Change(s.files.(reviews := WithoutReview(s.files.reviews, review) + [review]), AReview(review)))
  }

  /** `save_file_finding`. */
  function AddFinding(s: Store, r: FileRequest, reader: ManifestReader, ids: Fresh): Result<Change>
    requires r.FindingRequest?
  {
    match ReviewTarget(s, r.pr, r.path, r.revision, reader)
    case Failed(f) => Failed(f)
    case Done(t) =>
      var finding := Finding(ids.recordId, s.repo, r.pr, t.record.path, t.revision, r.text, Open, ByHuman, r.actor, "",
                             !t.record.patchComplete, t.record.digest);
      Done(Change(s.files.(findings := s.files.findings + [finding]), AFinding(finding)))
  }

  function Positions(ids: seq<string>, id: string, n: nat): (r: seq<nat>)
    requires n <= |ids|
    ensures forall i :: i in r <==> 0 <= i < n && ids[i] == id
  {
    if n == 0 then [] else Positions(ids, id, n - 1) + (if ids[n - 1] == id then [n - 1] else [])
  }

  /** The only position of an id, or why there is none. */
  function Locate(ids: seq<string>, id: string): (r: Result<nat>)
    ensures r.Done? ==> r.value < |ids| && ids[r.value] == id
  {
    var at := Positions(ids, id, |ids|);
    if at == [] then Failed(NotFound)
    else if |at| > 1 then Failed(Corrupt)
    else assert at[0] in at; Done(at[0])
  }

  /** `update_file_finding`: the status of one finding, and nothing else. */
  function SetStatus(s: Store, r: FileRequest): Result<Change>
    requires r.StatusRequest?
  {
    match Locate(FindingIds(s.files.findings), r.findingId)
    case Failed(f) => Failed(f)
    case Done(i) =>
      var finding := s.files.findings[i];
      if finding.repo != s.repo then Failed(RepositoryConflict)
      else
        var updated := finding.(status := r.status);
        Done(Change(s.files.(findings := s.files.findings[i := updated]), AFinding(updated)))
  }

  // ---- agent drafts ----

  function DraftItems(files: seq<FileRecord>, items: seq<DraftedItem>, ids: nat -> string,
                      n: nat): (r: Result<seq<DraftFinding>>)
    requires n <= |items|
    ensures r.Done? ==> |r.value| == n
    ensures r.Done? ==> forall i | 0 <= i < n :: r.value[i].draftFindingId == ids(i) && r.value[i].status == Undecided
  {
    if n == 0 then Done([]) else
      match DraftItems(files, items, ids, n - 1)
      case Failed(f) => Failed(f)
      case Done(rest) =>
        match CanonicalRecord(files, items[n - 1].path)
        case Failed(f) => Failed(f)
        case Done(record) =>
          Done(rest + [DraftFinding(ids(n - 1), record.path, items[n - 1].text, Undecided, "", !record.patchComplete)])
  }

  function CoveredPaths(rows: seq<Coverage>): (paths: seq<string>)
    ensures |paths| == |rows| && forall i | 0 <= i < |paths| :: paths[i] == rows[i].path
  {
    seq(|rows|, i requires 0 <= i < |rows| => rows[i].path)
  }

  function CoverItems(s: Store, r: FileRequest, m: Manifest, draftId: string, n: nat): (c: Result<seq<Coverage>>)
    requires r.DraftRequest? && n <= |r.coverage|
    ensures c.Done? ==> UniqueIds(CoveredPaths(c.value))
  {
    if n == 0 then Done([]) else
      match CoverItems(s, r, m, draftId, n - 1)
      case Failed(f) => Failed(f)
      case Done(rest) =>
        match CanonicalRecord(m.files, r.coverage[n - 1].path)
        case Failed(f) => Failed(f)
        case Done(record) =>
          if record.path in CoveredPaths(rest) then Failed(BadInput)
          else if r.coverage[n - 1].status.Inspected? && !record.hasPatch then Failed(BadInput)
          else Done(rest + [Coverage(s.repo, r.pr, record.path, m.revision, r.coverage[n - 1].status, r.actor,
                                     draftId)])
  }

  predicate Recovered(c: Coverage, rows: seq<Coverage>) {
    exists d | d in rows ::
      c.repo == d.repo && c.pr == d.pr && c.path == d.path && KeyOf(c.revision) == KeyOf(d.revision)
  }

  function WithoutCovered(all: seq<Coverage>, rows: seq<Coverage>): (r: seq<Coverage>)
    ensures forall c :: c in r <==>
              c in all && !exists d | d in rows ::
                c.repo == d.repo && c.pr == d.pr && c.path == d.path && SameContent(c.revision, d.revision)
  {
    if all == [] then [] else (if Recovered(all[0], rows) then [] else [all[0]]) + WithoutCovered(all[1..], rows)
  }

  /** `draft_file_review`: proposed findings and coverage, nothing that a human decided. */
  function DraftReview(s: Store, r: FileRequest, reader: ManifestReader, ids: Fresh): Result<Change>
    requires r.DraftRequest?
  {
    if (r.findings == [] && r.coverage == []) || |r.findings| > MAX_DRAFT_FINDINGS
      || |r.coverage| > MAX_DRAFT_COVERAGE then
      Failed(BadInput)
    else
      match ReviewEvidence(s, r.pr, reader)
      case Failed(f) => Failed(f)
      case Done(m) =>
        if !RightRevision(r.revision, m.revision) then Failed(RevisionConflict)
        else
          match DraftItems(m.files, r.findings, ids.item, |r.findings|)
          case Failed(f) => Failed(f)
          case Done(drafted) =>
            match CoverItems(s, r, m, ids.recordId, |r.coverage|)
            case Failed(f) => Failed(f)
            case Done(covered) =>
              var draft := FileDraft(ids.recordId, s.repo, r.pr, m.revision, drafted, CoveredPaths(covered), r.actor);
              Done(Change(s.files.(drafts := s.files.drafts + [draft],
                                   coverage := WithoutCovered(s.files.coverage, covered) + covered), ADraft(draft)))
  }

  // ---- adoption ----

  function FindDrafted(findings: seq<DraftFinding>, id: string): (r: Option<DraftFinding>)
    ensures r.Some? ==> r.value in findings && r.value.draftFindingId == id
  {
    if findings == [] then None
    else if findings[0].draftFindingId == id then Some(findings[0])
    else FindDrafted(findings[1..], id)
  }

  function Replacing(findings: seq<DraftFinding>, decided: DraftFinding): (r: seq<DraftFinding>)
    ensures |r| == |findings|
    ensures forall i | 0 <= i < |r| ::
              r[i] == if findings[i].draftFindingId == decided.draftFindingId then decided else findings[i]
  {
    seq(|findings|, i requires 0 <= i < |findings| =>
      if findings[i].draftFindingId == decided.draftFindingId then decided else findings[i])
  }

  function AdoptedFinding(s: Store, r: FileRequest, draft: FileDraft, drafted: DraftFinding, m: Manifest,
                          record: FileRecord, id: string): Finding
    requires r.AdoptRequest?
  {
    Finding(id, s.repo, draft.pr, record.path, m.revision, drafted.text, Open, FromDraft(r.draftId, r.draftFindingId),
            draft.author, r.actor, !record.patchComplete, record.digest)
  }

  /** The decided draft in its place, and the finding an acceptance creates. */
  function WithDecision(f: FileState, i: nat, decided: DraftFinding, created: Option<Finding>): Change
    requires i < |f.drafts|
  {
    var draft := f.drafts[i].(findings := Replacing(f.drafts[i].findings, decided));
    Change(f.(drafts := f.drafts[i := draft],
              findings := if created.Some? then f.findings + [created.value] else f.findings),
           AnAdoption(draft, created, true))
  }

  /** What `adopt_draft_finding` does: `Settled` is an answer without change. */
  datatype Adoption = Settled(draft: FileDraft) | Changed(change: Change)

  function Adopt(s: Store, r: FileRequest, reader: ManifestReader, ids: Fresh): Result<Adoption>
    requires r.AdoptRequest?
  {
    match Locate(DraftIds(s.files.drafts), r.draftId)
    case Failed(f) => Failed(f)
    case Done(i) =>
      var draft := s.files.drafts[i];
      if draft.repo != s.repo then Failed(RepositoryConflict)
      else if FindDrafted(draft.findings, r.draftFindingId).None? then Failed(NotFound)
      else
        var drafted := FindDrafted(draft.findings, r.draftFindingId).value;
        if !drafted.status.Undecided? then Done(Settled(draft))
        else
          match ReviewEvidence(s, draft.pr, reader)
          case Failed(f) => Failed(f)
          case Done(m) =>
            if KeyOf(draft.revision) != KeyOf(m.revision) then Failed(RevisionConflict)
            else if !r.accept then
              Done(Changed(WithDecision(s.files, i, drafted.(status := TurnedDown, decidedBy := r.actor), None)))
            else
              match CanonicalRecord(m.files, drafted.path)
              case Failed(f) => Failed(f)
              case Done(record) =>
                var finding := AdoptedFinding(s, r, draft, drafted, m, record, ids.recordId);
                Done(Changed(WithDecision(s.files, i, drafted.(status := Adopted(ids.recordId), decidedBy := r.actor),
                                          Some(finding))))
  }

  // ---- one file write ----

  function SourceOf(r: FileRequest): string { if r.DraftRequest? then "agent" else "human" }

  function ChangeOf(s: Store, r: FileRequest, reader: ManifestReader, ids: Fresh): Result<Adoption> {
    if r.AdoptRequest? then Adopt(s, r, reader, ids)
    else
      var change := match r
        case ReviewRequest(_, _, _, _, _, _, _) => Review(s, r, reader, ids)
        case FindingRequest(_, _, _, _, _, _) => AddFinding(s, r, reader, ids)
        case StatusRequest(_, _, _, _) => SetStatus(s, r)
        case DraftRequest(_, _, _, _, _, _) => DraftReview(s, r, reader, ids)
        case AdoptRequest(_, _, _, _, _) => Failed(BadInput);
      match change
      case Failed(f) => Failed(f)
      case Done(c) => Done(Changed(c))
  }

  /** Any of the five file writers. */
  ghost function WriteFile(s: Store, r: FileRequest, key: string, e: Expect, reader: ManifestReader,
                           ids: Fresh): Outcome<FileAnswer> {
    if Guard(s, r, key, e).Some? then Guard(s, r, key, e).value
    else
      match ChangeOf(s, r, reader, ids)
      case Failed(f) => Refused(f)
      case Done(Settled(draft)) => Unchanged(AnAdoption(draft, None, false))
      case Done(Changed(c)) =>
        Commit(s, s.(files := Recorded(c.files, r, key, ids.eventId, SourceOf(r), c.answer)), c.answer)
  }
}
