/**
 What the writers of triage/store.py check before they record anything about a group: its
 stored binding against freshly read evidence, and every submitted item against both.
 */
module GroupEvidence {
  import opened Models
  import opened Records

  // ---- the evidence of one row ----

  /** What reading the pinned evidence of a row gives while the store is locked. */
  datatype Reading = Read(revision: RevisionEvidence) | Unavailable | Broken(failure: Failure)

  type Reader = PrRow -> Reading

  /** `_captured_pr_revision`, and the incomplete identity recorded where it cannot be read. */
  function Recapture(source: string, row: PrRow, reader: Reader): Result<RevisionEvidence> {
    var incomplete := row.recorded.(prNumber := row.number, source := SourceKey(source), evidenceComplete := false);
    match reader(row)
    case Broken(f) => Failed(f)
    case Unavailable => Done(incomplete)
    case Read(r) =>
      if SourceKey(source) == "github" && (r.headSha != row.recorded.headSha || r.baseSha != row.recorded.baseSha) then
        Failed(RevisionConflict)
      else if r.contentDigest == "" || r.contentDigest != row.recorded.contentDigest then
        Failed(RevisionConflict)
      else if !r.evidenceComplete then Done(incomplete)
      else Done(r.(prNumber := row.number, source := SourceKey(source),
                   cacheSnapshotId := row.recorded.cacheSnapshotId))
  }

  // ---- a group and its members ----

  function RowsOf(prs: seq<PrRow>, n: int): seq<PrRow> {
    if prs == [] then [] else (if prs[0].number == n then [prs[0]] else []) + RowsOf(prs[1..], n)
  }

  predicate DistinctInts(s: seq<int>) { forall i, j | 0 <= i < j < |s| :: s[i] != s[j] }

  predicate SoundMembers(numbers: seq<int>) {
    numbers != [] && (forall n | n in numbers :: n > 0) && DistinctInts(numbers)
  }

  function RevisionNumbers(revisions: seq<RevisionEvidence>): (r: seq<int>)
    ensures |r| == |revisions| && forall i | 0 <= i < |r| :: r[i] == revisions[i].prNumber
  {
    seq(|revisions|, i requires 0 <= i < |revisions| => revisions[i].prNumber)
  }

  function NumberSet(revisions: seq<RevisionEvidence>): set<int> { set r | r in revisions :: r.prNumber }

  function InsertRevision(r: RevisionEvidence, s: seq<RevisionEvidence>): seq<RevisionEvidence> {
    if s == [] || r.prNumber <= s[0].prNumber then [r] + s else [s[0]] + InsertRevision(r, s[1..])
  }

  /** The material of `revision_snapshot_digest`: by number, without cache provenance. */
  function Digest(revisions: seq<RevisionEvidence>): seq<RevisionEvidence> {
    if revisions == [] then []
    else InsertRevision(revisions[0].(cacheSnapshotId := ""), Digest(revisions[1..]))
  }

  /** The group's stored binding is the freshly read evidence, member by member. */
  predicate BoundTo(g: StoreGroup, revisions: seq<RevisionEvidence>) {
    && |g.memberRevisions| == |g.prNumbers| && DistinctInts(RevisionNumbers(g.memberRevisions))
    && NumberSet(g.memberRevisions) == NumberSet(revisions)
    && forall b, r | b in g.memberRevisions && r in revisions && b.prNumber == r.prNumber :: SameBinding(b, r)
  }

  function RecaptureAll(source: string, prs: seq<PrRow>, numbers: seq<int>,
                        reader: Reader): Result<seq<RevisionEvidence>>
    requires forall n | n in numbers :: RowsOf(prs, n) != []
  {
    if numbers == [] then Done([]) else
      match Recapture(source, RowsOf(prs, numbers[0])[0], reader)
      case Failed(f) => Failed(f)
      case Done(first) =>
        match RecaptureAll(source, prs, numbers[1..], reader)
        case Failed(f) => Failed(f)
        case Done(rest) => Done([first] + rest)
  }

  lemma {:induction false} RowsOfNumber(prs: seq<PrRow>, n: int)
    ensures forall row | row in RowsOf(prs, n) :: row in prs && row.number == n
  {
    if prs != [] { RowsOfNumber(prs[1..], n); }
  }

  lemma {:induction false} RecapturedNumbers(source: string, prs: seq<PrRow>, numbers: seq<int>, reader: Reader)
    requires forall n | n in numbers :: RowsOf(prs, n) != []
    ensures var r := RecaptureAll(source, prs, numbers, reader); r.Done? ==> RevisionNumbers(r.value) == numbers
  {
    hide RowsOf;
    if numbers != [] {
      RowsOfNumber(prs, numbers[0]);
      RecapturedNumbers(source, prs, numbers[1..], reader);
    }
  }

  function MatchingGroups(groups: seq<StoreGroup>, gid: string): (m: seq<StoreGroup>)
    ensures forall g | g in m :: g in groups && g.groupId == gid
  {
    if groups == [] then [] else
      (if groups[0].groupId == gid then [groups[0]] else []) + MatchingGroups(groups[1..], gid)
  }

  function GroupsIn(s: Store, repo: string): seq<StoreGroup> {
    if repo in s.groupsByRepo then s.groupsByRepo[repo] else []
  }

  datatype Verified = Verified(group: StoreGroup, revisions: seq<RevisionEvidence>, complete: bool)

  predicate AllComplete(revisions: seq<RevisionEvidence>) { forall r | r in revisions :: r.evidenceComplete }

  /** `_verified_group_snapshot` with `reverify`. */
  function VerifyGroup(s: Store, gid: string, reader: Reader): Result<Verified> {
    var found := MatchingGroups(GroupsIn(s, s.repo), gid);
    if found == [] then Failed(NotFound)
    else if |found| > 1 then Failed(Corrupt)
    else
      var g := found[0];
      if !SoundMembers(g.prNumbers) then Failed(Corrupt)
      else if exists n | n in g.prNumbers :: |RowsOf(s.prs, n)| > 1 then Failed(Corrupt)
      else if (exists n | n in g.prNumbers :: RowsOf(s.prs, n) == [])
        || g.memberRevisions == [] then Failed(IncompleteEvidence)
      else
        SortedNumbersAreMembers(g.prNumbers);
        match RecaptureAll(s.source, s.prs, SortNumbers(g.prNumbers), reader)
        case Failed(f) => Failed(f)
        case Done(revisions) =>
          if !BoundTo(g, revisions) || Digest(revisions) != g.digest then Failed(Corrupt)
          else Done(Verified(g, revisions, g.evidenceComplete && AllComplete(revisions)))
  }

  lemma SortedNumbersAreMembers(numbers: seq<int>)
    ensures forall n :: n in SortNumbers(numbers) <==> n in numbers
    ensures |SortNumbers(numbers)| == |numbers|
  {
    SortNumbersSorts(numbers);
    assert |multiset(SortNumbers(numbers))| == |multiset(numbers)|;
    forall n
      ensures n in SortNumbers(numbers) <==> n in numbers
    {
      assert n in multiset(SortNumbers(numbers)) <==> n in multiset(numbers);
    }
  }

  /** A verified group is stored once, its members are its revisions in order, and each revision is the bound one. */
  lemma VerifiedIsBound(s: Store, gid: string, reader: Reader)
    requires VerifyGroup(s, gid, reader).Done?
    ensures var v := VerifyGroup(s, gid, reader).value;
            && v.group in GroupsIn(s, s.repo) && v.group.groupId == gid && SoundMembers(v.group.prNumbers)
            && RevisionNumbers(v.revisions) == SortNumbers(v.group.prNumbers)
            && BoundTo(v.group, v.revisions) && Digest(v.revisions) == v.group.digest
            && (v.complete <==> v.group.evidenceComplete && AllComplete(v.revisions))
  {
    hide BoundTo, Digest, SoundMembers, RecaptureAll;
    var found := MatchingGroups(GroupsIn(s, s.repo), gid);
    assert found[0] in found;
    SortedNumbersAreMembers(found[0].prNumbers);
    RecapturedNumbers(s.source, s.prs, SortNumbers(found[0].prNumbers), reader);
  }

  /** `_group_for_write`: no row of the whole snapshot may be duplicated. */
  function GroupForWrite(s: Store, gid: string, reader: Reader): Result<Verified> {
    if gid == "" || |gid| > 128 then Failed(BadInput)
    else if exists i, j | 0 <= i < j < |s.prs| :: s.prs[i].number == s.prs[j].number then Failed(Corrupt)
    else VerifyGroup(s, gid, reader)
  }

  // ---- submitted items ----

  function RevisionOf(revisions: seq<RevisionEvidence>, n: int): (r: Option<RevisionEvidence>)
    ensures r.Some? <==> n in NumberSet(revisions)
    ensures r.Some? ==> r.value in revisions && r.value.prNumber == n
  {
    if revisions == [] then None
    else if revisions[|revisions| - 1].prNumber == n then Some(revisions[|revisions| - 1])
    else RevisionOf(revisions[..|revisions| - 1], n)
  }

  datatype Writer = Writer(repo: string, actor: string, source: string, requireComplete: bool)

  predicate NonBlank(reason: string) { 1 <= |reason| <= 1000 }

  /** One submitted item, bound to the current revisions of its group. */
  function Bind(w: Writer, members: seq<int>, revisions: seq<RevisionEvidence>, item: Item,
                taken: set<int>): Result<Disposition> {
    var current := RevisionOf(revisions, item.pr);
    if item.pr <= 0 || item.pr !in members || item.pr in taken || !NonBlank(item.reason)
      || current.None? then Failed(BadInput)
    else if item.revision.Some?
      && !SameRevision(item.revision.value.(prNumber := item.pr), current.value) then Failed(RevisionConflict)
    else if w.requireComplete && (item.kind.Keep? || item.kind.Duplicate?) && !current.value.evidenceComplete then
      Failed(IncompleteEvidence)
    else
      var row := Disposition(w.repo, item.pr, current.value, item.kind, item.reason, item.duplicateOf, None, w.actor,
                             "", w.source);
      if !item.kind.Duplicate? then
        if item.duplicateOf.Some? || item.target.Some? then Failed(BadInput) else Done(row)
      else if item.duplicateOf.None? then Failed(BadInput)
      else
        var d := item.duplicateOf.value;
        var target := RevisionOf(revisions, d);
        if d <= 0 || d == item.pr || d !in members || target.None? then Failed(BadInput)
        else if item.target.Some?
          && !SameRevision(item.target.value.(prNumber := d), target.value) then Failed(RevisionConflict)
        else if w.requireComplete && !target.value.evidenceComplete then Failed(IncompleteEvidence)
        else Done(row.(target := target))
  }

  function ItemNumbers(items: seq<Item>): set<int> { set i | i in items :: i.pr }

  function BindFirst(w: Writer, members: seq<int>, revisions: seq<RevisionEvidence>, items: seq<Item>,
                     n: nat): Result<seq<Disposition>>
    requires n <= |items|
  {
    if n == 0 then Done([]) else
      match BindFirst(w, members, revisions, items, n - 1)
      case Failed(f) => Failed(f)
      case Done(rows) =>
        match Bind(w, members, revisions, items[n - 1], ItemNumbers(items[..n - 1]))
        case Failed(f) => Failed(f)
        case Done(row) => Done(rows + [row])
  }

  /** `_normalize_disposition_items`. */
  function BindItems(w: Writer, members: seq<int>, revisions: seq<RevisionEvidence>,
                     items: seq<Item>): Result<seq<Disposition>> {
    if items == [] || |items| > MAX_PROPOSAL_ITEMS || |items| > |members| then Failed(BadInput)
    else BindFirst(w, members, revisions, items, |items|)
  }

  lemma {:induction false} BindFailsEarly(w: Writer, members: seq<int>, revisions: seq<RevisionEvidence>,
                                          items: seq<Item>, n: nat, m: nat)
    requires n <= m <= |items| && BindFirst(w, members, revisions, items, n).Failed?
    ensures BindFirst(w, members, revisions, items, m) == BindFirst(w, members, revisions, items, n)
  {
    if n < m { BindFailsEarly(w, members, revisions, items, n, m - 1); }
  }

  method NormalizeItems(w: Writer, members: seq<int>, revisions: seq<RevisionEvidence>, items: seq<Item>)
    returns (r: Result<seq<Disposition>>)
    ensures r == BindItems(w, members, revisions, items)
  {
    hide Bind;
    if items == [] || |items| > MAX_PROPOSAL_ITEMS || |items| > |members| {
      return Failed(BadInput);
    }
    var numbers: set<int>, out := {}, [];
    for i := 0 to |items|
      invariant numbers == ItemNumbers(items[..i])
      invariant Done(out) == BindFirst(w, members, revisions, items, i)
    {
      var row := Bind(w, members, revisions, items[i], numbers);
      if row.Failed? {
        BindFailsEarly(w, members, revisions, items, i + 1, |items|);
        return Failed(row.failure);
      }
      out := out + [row.value];
      assert items[..i + 1] == items[..i] + [items[i]];
      numbers := numbers + {items[i].pr};
    }
    r := Done(out);
  }

  /** A bound row keeps the item's judgement and carries the current revisions, of itself and of its target. */
  ghost predicate BoundRow(w: Writer, members: seq<int>, revisions: seq<RevisionEvidence>, item: Item,
                           row: Disposition) {
    && row.repo == w.repo && row.actor == w.actor && row.source == w.source
    && row.pr == item.pr && row.kind == item.kind && row.reason == item.reason && row.duplicateOf == item.duplicateOf
    && ValidMember(members, revisions, row.pr, row.revision)
    && (row.kind.Duplicate? <==> row.duplicateOf.Some?) && (row.target.Some? <==> row.duplicateOf.Some?)
    && (row.duplicateOf.Some? ==>
          row.duplicateOf.value != row.pr && ValidMember(members, revisions, row.duplicateOf.value, row.target.value))
    && (item.revision.Some? ==> SameChange(item.revision.value, row.revision))
    && (item.target.Some? ==> row.target.Some? && SameChange(item.target.value, row.target.value))
    && (w.requireComplete && (row.kind.Keep? || row.kind.Duplicate?) ==> row.revision.evidenceComplete)
    && (w.requireComplete && row.target.Some? ==> row.target.value.evidenceComplete)
  }

  /** A submitted revision is about the recorded change: the same head, base and content, of the same source. */
  ghost predicate SameChange(submitted: RevisionEvidence, recorded: RevisionEvidence) {
    && submitted.headSha == recorded.headSha && submitted.baseSha == recorded.baseSha
    && submitted.contentDigest == recorded.contentDigest
    && (submitted.source == recorded.source || {submitted.source, recorded.source} == {"gh", "github"})
  }

  ghost predicate ValidMember(members: seq<int>, revisions: seq<RevisionEvidence>, n: int, revision: RevisionEvidence) {
    n > 0 && n in members && revision in revisions && revision.prNumber == n
  }

  lemma BindIsBound(w: Writer, members: seq<int>, revisions: seq<RevisionEvidence>, item: Item, taken: set<int>)
    requires Bind(w, members, revisions, item, taken).Done?
    ensures BoundRow(w, members, revisions, item, Bind(w, members, revisions, item, taken).value) && item.pr !in taken
    ensures NonBlank(Bind(w, members, revisions, item, taken).value.reason)
  {}

  /** Accepted items are about different members of the group, each bound to what is current. */
  lemma {:induction false} BoundItems(w: Writer, members: seq<int>, revisions: seq<RevisionEvidence>, items: seq<Item>,
                                      n: nat)
    requires n <= |items| && BindFirst(w, members, revisions, items, n).Done?
    ensures var rows := BindFirst(w, members, revisions, items, n).value;
            && |rows| == n
            && (forall i | 0 <= i < n :: BoundRow(w, members, revisions, items[i], rows[i]) && NonBlank(rows[i].reason))
            && forall i, j | 0 <= i < j < n :: rows[i].pr != rows[j].pr
  {
    hide Bind;
    if n > 0 {
      BoundItems(w, members, revisions, items, n - 1);
      BindIsBound(w, members, revisions, items[n - 1], ItemNumbers(items[..n - 1]));
      forall i | 0 <= i < n - 1
        ensures items[i].pr != items[n - 1].pr
      {
        assert items[..n - 1][i] == items[i];
      }
    }
  }
}
