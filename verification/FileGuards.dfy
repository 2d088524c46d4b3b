/**
 When the file writers of triage/store.py accept a request, said of the rows, the manifest and
 the records themselves.
 */
module FileGuards {
  import opened Models
  import opened Records
  import opened GroupEvidence
  import opened GroupVerification
  import opened Stores
  import opened FileReviews

  // ---- the evidence of one pull request ----

  /** Every pull request is recorded once, and reading the row of this one gives the manifest. */
  ghost predicate Manifested(s: Store, pr: int, reader: ManifestReader, m: Manifest) {
    && (forall i, j | 0 <= i < j < |s.prs| :: s.prs[i].number != s.prs[j].number)
    && exists i :: 0 <= i < |s.prs| && s.prs[i].number == pr && reader(s.prs[i]) == Done(m)
  }

  lemma EvidenceIff(s: Store, pr: int, reader: ManifestReader, m: Manifest)
    ensures ReviewEvidence(s, pr, reader) == Done(m) <==> Manifested(s, pr, reader, m)
  {
    hide RowsOf;
    NoRow(s.prs, pr);
    if forall i, j | 0 <= i < j < |s.prs| :: s.prs[i].number != s.prs[j].number {
      if RowsOf(s.prs, pr) != [] {
        var i :| 0 <= i < |s.prs| && s.prs[i].number == pr;
        FirstRow(s.prs, pr, i);
      }
    }
  }

  lemma {:induction false} FirstRow(prs: seq<PrRow>, n: int, i: nat)
    requires i < |prs| && prs[i].number == n && forall j | 0 <= j < i :: prs[j].number != n
    ensures RowsOf(prs, n) != [] && RowsOf(prs, n)[0] == prs[i]
  {
    if i > 0 { FirstRow(prs[1..], n, i - 1); }
  }

  // ---- the entry that a path addresses ----

  ghost predicate FirstNamed(files: seq<FileRecord>, i: int, path: string) {
    0 <= i < |files| && files[i].path == path && forall j | 0 <= j < i :: files[j].path != path
  }

  ghost predicate FirstRenamed(files: seq<FileRecord>, i: int, path: string) {
    0 <= i < |files| && files[i].previousPath == path && forall j | 0 <= j < i :: files[j].previousPath != path
  }

  /** The first entry of this path or, when there is none, the first entry renamed from it. */
  ghost predicate AddressedAt(files: seq<FileRecord>, i: int, path: string) {
    FirstNamed(files, i, path) || (FirstRenamed(files, i, path) && forall x | x in files :: x.path != path)
  }

  lemma {:induction false} NamedIs(files: seq<FileRecord>, path: string) returns (i: int)
    ensures ByPath(files, path).Some? ==> FirstNamed(files, i, path) && ByPath(files, path) == Some(files[i])
    ensures ByPath(files, path).None? ==> forall x | x in files :: x.path != path
  {
    i := 0;
    if files != [] && files[0].path != path {
      var k := NamedIs(files[1..], path);
      i := k + 1;
      assert forall j | 0 < j < |files| :: files[j] == files[1..][j - 1];
    }
  }

  lemma {:induction false} RenamedIs(files: seq<FileRecord>, path: string) returns (i: int)
    ensures ByPreviousPath(files, path).Some? ==>
              FirstRenamed(files, i, path) && ByPreviousPath(files, path) == Some(files[i])
    ensures ByPreviousPath(files, path).None? ==> forall x | x in files :: x.previousPath != path
  {
    i := 0;
    if files != [] && files[0].previousPath != path {
      var k := RenamedIs(files[1..], path);
      i := k + 1;
      assert forall j | 0 < j < |files| :: files[j] == files[1..][j - 1];
    }
  }

  /** A path is resolved to the entry it addresses, refused without one, and corrupt when that entry has no path. */
  lemma ResolvedIff(files: seq<FileRecord>, path: string)
    ensures forall i | AddressedAt(files, i, path) ::
              CanonicalRecord(files, path) == if files[i].path == "" then Failed(Corrupt) else Done(files[i])
    ensures (forall i :: !AddressedAt(files, i, path)) <==> CanonicalRecord(files, path) == Failed(BadInput)
  {
    hide ByPath, ByPreviousPath;
    var n := NamedIs(files, path);
    var r := RenamedIs(files, path);
    forall i | AddressedAt(files, i, path)
      ensures CanonicalRecord(files, path) == if files[i].path == "" then Failed(Corrupt) else Done(files[i])
    {
      assert files[i] in files;
    }
    if ByPath(files, path).Some? {
      assert AddressedAt(files, n, path);
    } else if ByPreviousPath(files, path).Some? {
      assert AddressedAt(files, r, path);
    }
  }

  /** The path addresses an entry that has a path. */
  ghost predicate Resolves(files: seq<FileRecord>, path: string, record: FileRecord) {
    exists i :: AddressedAt(files, i, path) && files[i] == record && record.path != ""
  }

  lemma ResolvesIff(files: seq<FileRecord>, path: string, record: FileRecord)
    ensures CanonicalRecord(files, path) == Done(record) <==> Resolves(files, path, record)
  {
    hide CanonicalRecord, AddressedAt;
    ResolvedIff(files, path);
  }

  ghost predicate Resolvable(files: seq<FileRecord>, path: string) {
    exists record :: Resolves(files, path, record)
  }

  lemma ResolvableIff(files: seq<FileRecord>, path: string)
    ensures CanonicalRecord(files, path).Done? <==> Resolvable(files, path)
  {
    hide CanonicalRecord, Resolves;
    forall record { ResolvesIff(files, path, record); }
    if CanonicalRecord(files, path).Done? { assert Resolves(files, path, CanonicalRecord(files, path).value); }
  }

  // ---- reviews, findings and their status ----

  ghost predicate SameKey(supplied: Option<RevisionKey>, r: RevisionEvidence) {
    supplied.Some? ==>
      && supplied.value.headSha == r.headSha && supplied.value.baseSha == r.baseSha
      && supplied.value.contentDigest == r.contentDigest
  }

  /**
   A review or a finding is accepted for a file of the manifest at the right revision; to be marked
   reviewed the file needs its whole patch.
   */
  lemma ReviewAcceptedIff(s: Store, r: FileRequest, reader: ManifestReader, ids: Fresh)
    requires r.ReviewRequest? || r.FindingRequest?
    ensures ChangeOf(s, r, reader, ids).Done? <==>
            exists m, record ::
              && Manifested(s, r.pr, reader, m) && SameKey(r.revision, m.revision) && Resolves(m.files, r.path, record)
              && (r.ReviewRequest? && r.reviewed ==> record.patchComplete)
  {
    hide ReviewEvidence, CanonicalRecord, Manifested, Resolves;
    forall m: Manifest, record: FileRecord
      | Manifested(s, r.pr, reader, m) && SameKey(r.revision, m.revision) && Resolves(m.files, r.path, record)
      ensures ReviewTarget(s, r.pr, r.path, r.revision, reader) == Done(Target(m.revision, record))
    {
      EvidenceIff(s, r.pr, reader, m);
      ResolvesIff(m.files, r.path, record);
    }
    if ReviewTarget(s, r.pr, r.path, r.revision, reader).Done? {
      var m := ReviewEvidence(s, r.pr, reader).value;
      var record := CanonicalRecord(m.files, r.path).value;
      EvidenceIff(s, r.pr, reader, m);
      ResolvesIff(m.files, r.path, record);
    }
  }

  /** The id is at this position and nowhere else. */
  ghost predicate Sole(ids: seq<string>, id: string, i: nat) {
    i < |ids| && ids[i] == id && forall j | 0 <= j < |ids| && ids[j] == id :: j == i
  }

  lemma {:induction false} PositionsAscend(ids: seq<string>, id: string, n: nat)
    requires n <= |ids|
    ensures forall a, b | 0 <= a < b < |Positions(ids, id, n)| :: Positions(ids, id, n)[a] < Positions(ids, id, n)[b]
  {
    if n > 0 {
      PositionsAscend(ids, id, n - 1);
      var before := Positions(ids, id, n - 1);
      forall a | 0 <= a < |before| ensures before[a] < n - 1 { assert before[a] in before; }
    }
  }

  lemma AtMostOne(at: seq<nat>, i: nat)
    requires forall a, b | 0 <= a < b < |at| :: at[a] < at[b]
    requires forall k | 0 <= k < |at| :: at[k] == i
    ensures |at| <= 1
  {
    if at != [] { assert at[0] == at[|at| - 1]; }
  }

  lemma LocateIff(ids: seq<string>, id: string, i: nat)
    ensures Locate(ids, id) == Done(i) <==> Sole(ids, id, i)
  {
    hide Positions;
    var at := Positions(ids, id, |ids|);
    PositionsAscend(ids, id, |ids|);
    if Sole(ids, id, i) {
      assert i in at;
      forall k | 0 <= k < |at| ensures at[k] == i { assert at[k] in at; }
      AtMostOne(at, i);
    }
    if Locate(ids, id) == Done(i) {
      assert at == [i];
    }
  }

  /** The status of a finding can be set exactly when its id is unique and it belongs to the repository. */
  lemma StatusAcceptedIff(s: Store, r: FileRequest, reader: ManifestReader, ids: Fresh)
    requires r.StatusRequest?
    ensures ChangeOf(s, r, reader, ids).Done? <==>
            exists i: nat :: Sole(FindingIds(s.files.findings), r.findingId, i) && s.files.findings[i].repo == s.repo
    ensures forall i: nat | Sole(FindingIds(s.files.findings), r.findingId, i) && s.files.findings[i].repo == s.repo ::
              ChangeOf(s, r, reader, ids) ==
              (var updated := s.files.findings[i].(status := r.status);
               Done(Changed(Change(s.files.(findings := s.files.findings[i := updated]), AFinding(updated)))))
  {
    hide Locate, FindingIds, Sole;
    forall i: nat
      ensures Locate(FindingIds(s.files.findings), r.findingId) == Done(i) <==>
              Sole(FindingIds(s.files.findings), r.findingId, i)
    {
      LocateIff(FindingIds(s.files.findings), r.findingId, i);
    }
  }

  // ---- agent drafts ----

  ghost predicate Draftable(files: seq<FileRecord>, items: seq<DraftedItem>, n: nat)
    requires n <= |items|
  {
    forall i | 0 <= i < n :: Resolvable(files, items[i].path)
  }

  lemma {:induction false} DraftableIff(files: seq<FileRecord>, items: seq<DraftedItem>, ids: nat -> string, n: nat)
    requires n <= |items|
    ensures DraftItems(files, items, ids, n).Done? <==> Draftable(files, items, n)
  {
    hide CanonicalRecord, Resolvable;
    if n > 0 {
      DraftableIff(files, items, ids, n - 1);
      ResolvableIff(files, items[n - 1].path);
    }
  }

  /** The covered path of an item. */
  ghost predicate CoversPath(m: Manifest, item: CoveredItem, path: string) {
    exists record :: Resolves(m.files, item.path, record) && record.path == path
                     && (item.status.Inspected? ==> record.hasPatch)
  }

  /** These are the paths of the first items: different ones, each of an entry that its item addresses. */
  ghost predicate Coverable(m: Manifest, items: seq<CoveredItem>, n: nat, paths: seq<string>)
    requires n <= |items|
  {
    && |paths| == n && (forall i | 0 <= i < n :: CoversPath(m, items[i], paths[i]))
    && forall i, j | 0 <= i < j < n :: paths[i] != paths[j]
  }

  lemma CoversPathIff(m: Manifest, item: CoveredItem, path: string)
    ensures CoversPath(m, item, path) <==>
            var found := CanonicalRecord(m.files, item.path);
            found.Done? && found.value.path == path && (item.status.Inspected? ==> found.value.hasPatch)
  {
    hide CanonicalRecord, Resolves;
    forall record { ResolvesIff(m.files, item.path, record); }
  }

  lemma {:induction false} CoverableIff(s: Store, r: FileRequest, m: Manifest, draftId: string, n: nat,
                                        paths: seq<string>)
    requires r.DraftRequest? && n <= |r.coverage|
    ensures Coverable(m, r.coverage, n, paths) <==>
            CoverItems(s, r, m, draftId, n).Done? && CoveredPaths(CoverItems(s, r, m, draftId, n).value) == paths
  {
    hide CanonicalRecord, CoversPath, UniqueIds;
    if n == 0 {
      assert CoveredPaths([]) == [];
      assert |paths| == 0 <==> paths == [];
    } else {
      if paths != [] {
        var k := |paths| - 1;
        assert paths == paths[..k] + [paths[k]];
        CoverableIff(s, r, m, draftId, n - 1, paths[..k]);
        CoversPathIff(m, r.coverage[n - 1], paths[k]);
        LastIsNew(paths);
        ExtendCovered(s, r, m, draftId, n, paths);
        ExtendCoverable(m, r.coverage, n, paths);
      } else if CoverItems(s, r, m, draftId, n).Done? {
        assert |CoveredPaths(CoverItems(s, r, m, draftId, n).value)| > 0;
      }
    }
  }

  lemma LastIsNew(paths: seq<string>)
    requires paths != []
    ensures (forall i, j | 0 <= i < j < |paths| :: paths[i] != paths[j]) <==>
            && (forall i, j | 0 <= i < j < |paths| - 1 :: paths[i] != paths[j])
            && paths[|paths| - 1] !in paths[..|paths| - 1]
  {}

  lemma ExtendCoverable(m: Manifest, items: seq<CoveredItem>, n: nat, paths: seq<string>)
    requires 0 < n <= |items| && paths != []
    ensures Coverable(m, items, n, paths) <==>
            && Coverable(m, items, n - 1, paths[..|paths| - 1])
            && CoversPath(m, items[n - 1], paths[|paths| - 1]) && paths[|paths| - 1] !in paths[..|paths| - 1]
  {
    hide CoversPath;
    LastIsNew(paths);
  }

  lemma ExtendCovered(s: Store, r: FileRequest, m: Manifest, draftId: string, n: nat, paths: seq<string>)
    requires r.DraftRequest? && 0 < n <= |r.coverage| && paths != []
    ensures var before := CoverItems(s, r, m, draftId, n - 1);
            var after := CoverItems(s, r, m, draftId, n);
            var k := |paths| - 1;
            after.Done? && CoveredPaths(after.value) == paths <==>
            && before.Done? && CoveredPaths(before.value) == paths[..k]
            && CoversPath(m, r.coverage[n - 1], paths[k]) && paths[k] !in paths[..k]
  {
    hide CanonicalRecord, CoversPath, UniqueIds;
    CoversPathIff(m, r.coverage[n - 1], paths[|paths| - 1]);
    var before, after := CoverItems(s, r, m, draftId, n - 1), CoverItems(s, r, m, draftId, n);
    if before.Done? && CanonicalRecord(m.files, r.coverage[n - 1].path).Done? {
      var record := CanonicalRecord(m.files, r.coverage[n - 1].path).value;
      var k := |paths| - 1;
      assert paths == paths[..k] + [paths[k]];
      if after.Done? {
        assert CoveredPaths(after.value) == CoveredPaths(before.value) + [record.path];
      }
    }
  }

  /**
   A draft is accepted when it proposes something within the limits and every path addresses an
   entry; none is covered twice.
   */
  lemma DraftAcceptedIff(s: Store, r: FileRequest, reader: ManifestReader, ids: Fresh)
    requires r.DraftRequest?
    ensures ChangeOf(s, r, reader, ids).Done? <==>
            && |r.findings| + |r.coverage| > 0 && |r.findings| <= 100 && |r.coverage| <= 500
            && exists m, paths ::
                 && Manifested(s, r.pr, reader, m) && SameKey(r.revision, m.revision)
                 && Draftable(m.files, r.findings, |r.findings|) && Coverable(m, r.coverage, |r.coverage|, paths)
  {
    hide ReviewEvidence, DraftItems, CoverItems, Manifested, Draftable, Coverable, CoveredPaths, WithoutCovered,
         UniqueIds;
    forall m { EvidenceIff(s, r.pr, reader, m); }
    forall m, paths
      ensures Coverable(m, r.coverage, |r.coverage|, paths) <==>
              CoverItems(s, r, m, ids.recordId, |r.coverage|).Done?
              && CoveredPaths(CoverItems(s, r, m, ids.recordId, |r.coverage|).value) == paths
    {
      CoverableIff(s, r, m, ids.recordId, |r.coverage|, paths);
    }
    forall m: Manifest { DraftableIff(m.files, r.findings, ids.item, |r.findings|); }
    if ChangeOf(s, r, reader, ids).Done? {
      var m := ReviewEvidence(s, r.pr, reader).value;
      var paths := CoveredPaths(CoverItems(s, r, m, ids.recordId, |r.coverage|).value);
      assert Coverable(m, r.coverage, |r.coverage|, paths);
    }
  }

  // ---- adoption ----

  /** The first drafted finding of this id. */
  ghost predicate DraftedAt(findings: seq<DraftFinding>, id: string, i: int) {
    0 <= i < |findings| && findings[i].draftFindingId == id && forall j | 0 <= j < i :: findings[j].draftFindingId != id
  }

  lemma {:induction false} DraftedIs(findings: seq<DraftFinding>, id: string) returns (i: int)
    ensures FindDrafted(findings, id).Some? ==>
              DraftedAt(findings, id, i) && FindDrafted(findings, id) == Some(findings[i])
    ensures FindDrafted(findings, id).None? ==> forall k :: !DraftedAt(findings, id, k)
  {
    i := 0;
    if findings != [] && findings[0].draftFindingId != id {
      var k := DraftedIs(findings[1..], id);
      i := k + 1;
      assert forall j | 0 < j < |findings| :: findings[j] == findings[1..][j - 1];
      forall k | DraftedAt(findings, id, k) ensures DraftedAt(findings[1..], id, k - 1) {}
    }
  }

  /**
   The evidence still is that of the draft and, for an acceptance, the path of the finding still
   addresses an entry.
   */
  ghost predicate Adoptable(s: Store, draft: FileDraft, drafted: DraftFinding, accept: bool, reader: ManifestReader) {
    exists m :: Manifested(s, draft.pr, reader, m) && KeyOf(draft.revision) == KeyOf(m.revision)
                && (accept ==> Resolvable(m.files, drafted.path))
  }

  /**
   A decision on a drafted finding finds the only draft of its id, in the repository, with that finding;
   a decided one is answered as it is, and a pending one is decided exactly when it can be.
   */
  lemma AdoptAcceptedIff(s: Store, r: FileRequest, reader: ManifestReader, ids: Fresh, k: nat, i: nat)
    requires r.AdoptRequest? && Sole(DraftIds(s.files.drafts), r.draftId, k)
    requires DraftedAt(s.files.drafts[k].findings, r.draftFindingId, i)
    ensures var draft := s.files.drafts[k];
            var drafted := draft.findings[i];
            var a := ChangeOf(s, r, reader, ids);
            && (draft.repo != s.repo ==> a == Failed(RepositoryConflict))
            && (draft.repo == s.repo && !drafted.status.Undecided? ==> a == Done(Adoption.Settled(draft)))
            && (draft.repo == s.repo && drafted.status.Undecided? ==>
                  (a.Done? <==> Adoptable(s, draft, drafted, r.accept, reader)) && (a.Done? ==> a.value.Changed?))
  {
    hide ReviewEvidence, CanonicalRecord, Locate, FindDrafted, Manifested, Resolves, WithDecision, DraftedAt, Adoptable;
    var draft := s.files.drafts[k];
    LocateIff(DraftIds(s.files.drafts), r.draftId, k);
    var at := DraftedIs(draft.findings, r.draftFindingId);
    SameDrafted(draft.findings, r.draftFindingId, i, at);
    AdoptableIff(s, draft, draft.findings[i], r.accept, reader);
  }

  lemma AdoptableIff(s: Store, draft: FileDraft, drafted: DraftFinding, accept: bool, reader: ManifestReader)
    ensures Adoptable(s, draft, drafted, accept, reader) <==>
            var m := ReviewEvidence(s, draft.pr, reader);
            m.Done? && KeyOf(draft.revision) == KeyOf(m.value.revision)
            && (accept ==> CanonicalRecord(m.value.files, drafted.path).Done?)
  {
    hide ReviewEvidence, CanonicalRecord, Manifested, Resolvable;
    forall m { EvidenceIff(s, draft.pr, reader, m); }
    forall m: Manifest { ResolvableIff(m.files, drafted.path); }
  }

  lemma SameDrafted(findings: seq<DraftFinding>, id: string, i: int, j: int)
    requires DraftedAt(findings, id, i)
    ensures 0 <= i < |findings| && (DraftedAt(findings, id, j) ==> i == j)
  {}

  /** Without such a draft or such a finding there is nothing to decide. */
  lemma AdoptNeedsDraft(s: Store, r: FileRequest, reader: ManifestReader, ids: Fresh)
    requires r.AdoptRequest? && ChangeOf(s, r, reader, ids).Done?
    ensures exists k: nat, i: nat :: Sole(DraftIds(s.files.drafts), r.draftId, k) && s.files.drafts[k].repo == s.repo
                                     && DraftedAt(s.files.drafts[k].findings, r.draftFindingId, i)
  {
    hide ReviewEvidence, CanonicalRecord, Locate, FindDrafted, WithDecision, DraftIds, Sole, DraftedAt;
    var k := Locate(DraftIds(s.files.drafts), r.draftId).value;
    LocateIff(DraftIds(s.files.drafts), r.draftId, k);
    var i := DraftedIs(s.files.drafts[k].findings, r.draftFindingId);
    assert i >= 0 by { DraftedInRange(s.files.drafts[k].findings, r.draftFindingId, i); }
  }

  lemma DraftedInRange(findings: seq<DraftFinding>, id: string, i: int)
    requires DraftedAt(findings, id, i)
    ensures 0 <= i < |findings|
  {}
}
