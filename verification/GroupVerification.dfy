/**
 When a group verifies and when an item is accepted, of triage/store.py, said of the rows, the
 readings and the recorded bindings themselves: both directions of what the writers rely on.
 */
module GroupVerification {
  import opened Models
  import opened Records
  import opened GroupEvidence

  // ---- one of a kind ----

  /** The row at this position is the only one with its number. */
  ghost predicate SoleRow(prs: seq<PrRow>, i: nat, n: int) {
    i < |prs| && prs[i].number == n && forall j | 0 <= j < |prs| && prs[j].number == n :: j == i
  }

  /** The group at this position is the only one with its id. */
  ghost predicate OnlyGroup(groups: seq<StoreGroup>, i: nat, gid: string) {
    i < |groups| && groups[i].groupId == gid && forall j | 0 <= j < |groups| && groups[j].groupId == gid :: j == i
  }

  lemma {:induction false} NoRow(prs: seq<PrRow>, n: int)
    ensures RowsOf(prs, n) == [] <==> forall i | 0 <= i < |prs| :: prs[i].number != n
  {
    if prs != [] {
      NoRow(prs[1..], n);
      assert forall i | 0 < i < |prs| :: prs[i] == prs[1..][i - 1];
    }
  }

  lemma {:induction false} OneRow(prs: seq<PrRow>, n: int) returns (i: nat)
    ensures |RowsOf(prs, n)| == 1 ==> SoleRow(prs, i, n) && RowsOf(prs, n)[0] == prs[i]
    ensures |RowsOf(prs, n)| != 1 ==> forall k: nat :: !SoleRow(prs, k, n)
  {
    i := 0;
    if prs != [] {
      var rest := prs[1..];
      NoRow(rest, n);
      if prs[0].number == n {
        forall k: nat | |RowsOf(prs, n)| != 1
          ensures !SoleRow(prs, k, n)
        {
          var j :| 0 <= j < |rest| && rest[j].number == n;
          assert prs[j + 1].number == n && prs[0].number == n;
        }
        assert forall j | 0 < j < |prs| :: prs[j] == rest[j - 1];
      } else {
        var k := OneRow(rest, n);
        i := k + 1;
        forall m: nat | SoleRow(prs, m, n)
          ensures m > 0 && SoleRow(rest, m - 1, n)
        {
          assert forall j | 0 <= j < |rest| && rest[j].number == n :: prs[j + 1].number == n;
        }
        assert forall j | 0 < j < |prs| :: prs[j] == rest[j - 1];
      }
    }
  }

  lemma {:induction false} NoGroup(groups: seq<StoreGroup>, gid: string)
    ensures MatchingGroups(groups, gid) == [] <==> forall i | 0 <= i < |groups| :: groups[i].groupId != gid
  {
    if groups != [] {
      NoGroup(groups[1..], gid);
      assert forall i | 0 < i < |groups| :: groups[i] == groups[1..][i - 1];
    }
  }

  lemma {:induction false} OneGroup(groups: seq<StoreGroup>, gid: string) returns (i: nat)
    ensures |MatchingGroups(groups, gid)| == 1 ==>
              OnlyGroup(groups, i, gid) && MatchingGroups(groups, gid)[0] == groups[i]
    ensures |MatchingGroups(groups, gid)| != 1 ==> forall k: nat :: !OnlyGroup(groups, k, gid)
  {
    i := 0;
    if groups != [] {
      var rest := groups[1..];
      NoGroup(rest, gid);
      if groups[0].groupId == gid {
        forall k: nat | |MatchingGroups(groups, gid)| != 1
          ensures !OnlyGroup(groups, k, gid)
        {
          var j :| 0 <= j < |rest| && rest[j].groupId == gid;
          assert groups[j + 1].groupId == gid && groups[0].groupId == gid;
        }
        assert forall j | 0 < j < |groups| :: groups[j] == rest[j - 1];
      } else {
        var k := OneGroup(rest, gid);
        i := k + 1;
        forall m: nat | OnlyGroup(groups, m, gid)
          ensures m > 0 && OnlyGroup(rest, m - 1, gid)
        {
          assert forall j | 0 <= j < |rest| && rest[j].groupId == gid :: groups[j + 1].groupId == gid;
        }
        assert forall j | 0 < j < |groups| :: groups[j] == rest[j - 1];
      }
    }
  }

  // ---- evidence read again ----

  /** Reading does not contradict what the row records: its content, and on GitHub its head and its base. */
  ghost predicate Agrees(source: string, row: PrRow, reading: Reading) {
    match reading
    case Broken(_) => false
    case Unavailable => true
    case Read(r) =>
      && r.contentDigest != "" && r.contentDigest == row.recorded.contentDigest
      && (source in {"gh", "github"} ==> r.headSha == row.recorded.headSha && r.baseSha == row.recorded.baseSha)
  }

  /** The revision of a member: what was read if that is complete, and otherwise what is recorded, as incomplete. */
  ghost predicate Captured(source: string, row: PrRow, reading: Reading, r: RevisionEvidence) {
    && r.prNumber == row.number && r.source == (if source == "gh" then "github" else source)
    && r.cacheSnapshotId == row.recorded.cacheSnapshotId && r.contentDigest == row.recorded.contentDigest
    && (r.evidenceComplete <==> reading.Read? && reading.revision.evidenceComplete)
    && var from := if r.evidenceComplete then reading.revision else row.recorded;
       && r.headSha == from.headSha && r.baseSha == from.baseSha
       && r.additions == from.additions && r.deletions == from.deletions
  }

  lemma RecaptureIff(source: string, row: PrRow, reader: Reader, r: RevisionEvidence)
    ensures Recapture(source, row, reader) == Done(r) <==>
            Agrees(source, row, reader(row)) && Captured(source, row, reader(row), r)
  {
    assert source in {"gh", "github"} <==> SourceKey(source) == "github";
    match reader(row) {
      case Broken(f) =>
      case Unavailable =>
      case Read(x) =>
        var from := if x.evidenceComplete then x else row.recorded;
        assert r == from.(prNumber := row.number, source := SourceKey(source), evidenceComplete := x.evidenceComplete,
                          contentDigest := row.recorded.contentDigest, cacheSnapshotId := row.recorded.cacheSnapshotId)
          <==> Captured(source, row, reader(row), r);
    }
  }

  /** The revision is captured from the only row of its number. */
  ghost predicate FromOnlyRow(s: Store, reader: Reader, r: RevisionEvidence) {
    exists i: nat :: SoleRow(s.prs, i, r.prNumber) && Agrees(s.source, s.prs[i], reader(s.prs[i]))
                     && Captured(s.source, s.prs[i], reader(s.prs[i]), r)
  }

  lemma FromOnlyRowIff(s: Store, reader: Reader, n: int, r: RevisionEvidence)
    ensures r.prNumber == n && FromOnlyRow(s, reader, r) <==>
            |RowsOf(s.prs, n)| == 1 && Recapture(s.source, RowsOf(s.prs, n)[0], reader) == Done(r)
  {
    hide Recapture, Agrees, Captured, RowsOf;
    var i := OneRow(s.prs, n);
    if |RowsOf(s.prs, n)| == 1 {
      RecaptureIff(s.source, s.prs[i], reader, r);
      if Captured(s.source, s.prs[i], reader(s.prs[i]), r) { CapturedNumber(s.source, s.prs[i], reader(s.prs[i]), r); }
    }
  }

  lemma CapturedNumber(source: string, row: PrRow, reading: Reading, r: RevisionEvidence)
    requires Captured(source, row, reading, r)
    ensures r.prNumber == row.number
  {}

  lemma {:induction false} RecaptureAllIff(s: Store, numbers: seq<int>, reader: Reader,
                                           revisions: seq<RevisionEvidence>)
    requires forall n | n in numbers :: |RowsOf(s.prs, n)| == 1
    ensures RecaptureAll(s.source, s.prs, numbers, reader) == Done(revisions) <==>
            RevisionNumbers(revisions) == numbers && forall r | r in revisions :: FromOnlyRow(s, reader, r)
  {
    hide Recapture, FromOnlyRow, RowsOf, RevisionNumbers;
    if numbers == [] {
      assert |RevisionNumbers(revisions)| == |revisions|;
    } else if revisions != [] {
      RecaptureAllIff(s, numbers[1..], reader, revisions[1..]);
      FromOnlyRowIff(s, reader, numbers[0], revisions[0]);
      assert revisions == [revisions[0]] + revisions[1..];
      assert RevisionNumbers(revisions) == [revisions[0].prNumber] + RevisionNumbers(revisions[1..]);
    }
  }

  // ---- a whole group ----

  /**
   The group is the only one of its id, its members are different positive numbers, every revision is
   captured from the only row of its member, and the binding and the digest are those of the revisions.
   */
  ghost predicate Verifies(s: Store, gid: string, reader: Reader, v: Verified) {
    && (exists i: nat :: OnlyGroup(GroupsIn(s, s.repo), i, gid) && GroupsIn(s, s.repo)[i] == v.group)
    && SoundMembers(v.group.prNumbers) && RevisionNumbers(v.revisions) == SortNumbers(v.group.prNumbers)
    && (forall r | r in v.revisions :: FromOnlyRow(s, reader, r))
    && BoundTo(v.group, v.revisions) && Digest(v.revisions) == v.group.digest
    && (v.complete <==> v.group.evidenceComplete && AllComplete(v.revisions))
  }

  lemma VerifyIff(s: Store, gid: string, reader: Reader, v: Verified)
    ensures VerifyGroup(s, gid, reader) == Done(v) <==> Verifies(s, gid, reader, v)
  {
    hide BoundTo, Digest, RecaptureAll, RowsOf, MatchingGroups, FromOnlyRow, SortNumbers, AllComplete, SoundMembers;
    var found := MatchingGroups(GroupsIn(s, s.repo), gid);
    var at := OneGroup(GroupsIn(s, s.repo), gid);
    var g := v.group;
    SortedNumbersAreMembers(g.prNumbers);
    if Verifies(s, gid, reader, v) {
      assert |found| == 1 && found[0] == g;
      BindingNotEmpty(g, v.revisions);
      forall n | n in g.prNumbers
        ensures |RowsOf(s.prs, n)| == 1
      {
        var i :| 0 <= i < |SortNumbers(g.prNumbers)| && SortNumbers(g.prNumbers)[i] == n;
        assert v.revisions[i] in v.revisions && v.revisions[i].prNumber == n;
        FromOnlyRowIff(s, reader, n, v.revisions[i]);
      }
      RecaptureAllIff(s, SortNumbers(g.prNumbers), reader, v.revisions);
    }
    if VerifyGroup(s, gid, reader) == Done(v) {
      assert |found| == 1 && found[0] == g;
      RecaptureAllIff(s, SortNumbers(g.prNumbers), reader, v.revisions);
    }
  }

  lemma BindingNotEmpty(g: StoreGroup, revisions: seq<RevisionEvidence>)
    requires BoundTo(g, revisions) && SoundMembers(g.prNumbers)
    ensures g.memberRevisions != []
  {}

  /** A writer of items verifies the group in a store that records every pull request once. */
  lemma GroupForWriteIff(s: Store, gid: string, reader: Reader, v: Verified)
    ensures GroupForWrite(s, gid, reader) == Done(v) <==>
            && 1 <= |gid| <= 128 && (forall i, j | 0 <= i < j < |s.prs| :: s.prs[i].number != s.prs[j].number)
            && Verifies(s, gid, reader, v)
  {
    hide VerifyGroup, Verifies;
    VerifyIff(s, gid, reader, v);
  }

  // ---- the digest ----

  /** A revision as the digest sees it. */
  function Stripped(r: RevisionEvidence): RevisionEvidence {
    RevisionEvidence(r.prNumber, r.headSha, r.baseSha, r.additions, r.deletions, r.contentDigest, r.evidenceComplete,
                     r.source, "")
  }

  ghost predicate InNumberOrder(revisions: seq<RevisionEvidence>) {
    forall i, j | 0 <= i < j < |revisions| :: revisions[i].prNumber < revisions[j].prNumber
  }

  lemma {:induction false} InsertedInOrder(r: RevisionEvidence, s: seq<RevisionEvidence>)
    requires InNumberOrder(s) && forall x | x in s :: x.prNumber != r.prNumber
    ensures InNumberOrder(InsertRevision(r, s)) && forall x :: x in InsertRevision(r, s) <==> x == r || x in s
  {
    if s != [] && r.prNumber > s[0].prNumber {
      var rest := InsertRevision(r, s[1..]);
      InsertedInOrder(r, s[1..]);
      assert s == [s[0]] + s[1..];
      forall j | 0 <= j < |rest|
        ensures s[0].prNumber < rest[j].prNumber
      {
        assert rest[j] in rest;
      }
    }
  }

  lemma TailIsDistinct(revisions: seq<RevisionEvidence>)
    requires revisions != [] && DistinctInts(RevisionNumbers(revisions))
    ensures DistinctInts(RevisionNumbers(revisions[1..]))
    ensures forall r | r in revisions[1..] :: r.prNumber != revisions[0].prNumber
  {
    var numbers, rest := RevisionNumbers(revisions), revisions[1..];
    assert forall i | 0 <= i < |rest| :: RevisionNumbers(rest)[i] == numbers[i + 1];
    forall r | r in rest
      ensures r.prNumber != revisions[0].prNumber
    {
      var i :| 0 <= i < |rest| && rest[i] == r;
      assert numbers[i + 1] == r.prNumber && numbers[0] == revisions[0].prNumber;
    }
  }

  /** The digest of a member list is over its revisions in the order of their numbers, without cache provenance. */
  lemma {:induction false} DigestLists(revisions: seq<RevisionEvidence>)
    requires DistinctInts(RevisionNumbers(revisions))
    ensures InNumberOrder(Digest(revisions))
    ensures forall x :: x in Digest(revisions) <==> exists r :: r in revisions && x == Stripped(r)
  {
    hide RevisionNumbers, DistinctInts, InsertRevision;
    if revisions == [] {
    } else {
      var first, rest := revisions[0], revisions[1..];
      TailIsDistinct(revisions);
      DigestLists(rest);
      assert revisions == [first] + rest;
      assert Stripped(first) == first.(cacheSnapshotId := "");
      InsertedInOrder(first.(cacheSnapshotId := ""), Digest(rest));
    }
  }

  lemma EmptyTogether<T>(a: seq<T>, b: seq<T>)
    requires forall x :: x in a <==> x in b
    ensures a == [] <==> b == []
  {
    if a != [] { assert a[0] in a; }
    if b != [] { assert b[0] in b; }
  }

  lemma {:induction false} OrderDetermines(a: seq<RevisionEvidence>, b: seq<RevisionEvidence>)
    requires InNumberOrder(a) && InNumberOrder(b) && forall x :: x in a <==> x in b
    ensures a == b
  {
    EmptyTogether(a, b);
    if a != [] {
      assert a == [a[0]] + a[1..] && b == [b[0]] + b[1..];
      assert a[0] in b && b[0] in a && a[0] == b[0];
      forall x
        ensures x in a[1..] <==> x in b[1..]
      {
        if x in a[1..] {
          var i :| 0 <= i < |a[1..]| && a[1..][i] == x;
          assert a[i + 1] == x && x in b;
        }
        if x in b[1..] {
          var i :| 0 <= i < |b[1..]| && b[1..][i] == x;
          assert b[i + 1] == x && x in a;
        }
      }
      OrderDetermines(a[1..], b[1..]);
    }
  }

  ghost predicate Covers(a: seq<RevisionEvidence>, b: seq<RevisionEvidence>) {
    forall r | r in a :: exists q :: q in b && Stripped(q) == Stripped(r)
  }

  /** Equal digests are equal revisions apart from cache provenance, in whatever order they were listed. */
  lemma DigestsAgree(a: seq<RevisionEvidence>, b: seq<RevisionEvidence>)
    requires DistinctInts(RevisionNumbers(a)) && DistinctInts(RevisionNumbers(b))
    ensures Digest(a) == Digest(b) <==> Covers(a, b) && Covers(b, a)
  {
    hide Digest, DistinctInts, InNumberOrder, Covers;
    DigestLists(a);
    DigestLists(b);
    if Covers(a, b) && Covers(b, a) {
      DigestCovers(a, b);
      DigestCovers(b, a);
      OrderDetermines(Digest(a), Digest(b));
    }
    if Digest(a) == Digest(b) {
      DigestCovered(a, b);
      DigestCovered(b, a);
    }
  }

  lemma DigestCovers(a: seq<RevisionEvidence>, b: seq<RevisionEvidence>)
    requires DistinctInts(RevisionNumbers(a)) && DistinctInts(RevisionNumbers(b)) && Covers(a, b)
    ensures forall x | x in Digest(a) :: x in Digest(b)
  {
    hide Digest, DistinctInts, InNumberOrder, Stripped;
    DigestLists(a);
    DigestLists(b);
    forall x | x in Digest(a)
      ensures x in Digest(b)
    {
      var r :| r in a && x == Stripped(r);
      var q :| q in b && Stripped(q) == Stripped(r);
    }
  }

  lemma DigestCovered(a: seq<RevisionEvidence>, b: seq<RevisionEvidence>)
    requires DistinctInts(RevisionNumbers(a)) && DistinctInts(RevisionNumbers(b)) && Digest(a) == Digest(b)
    ensures Covers(a, b)
  {
    hide Digest, DistinctInts, InNumberOrder, Stripped;
    DigestLists(a);
    DigestLists(b);
    forall r | r in a ensures exists q :: q in b && Stripped(q) == Stripped(r) { assert Stripped(r) in Digest(a); }
  }

  // ---- items ----

  /** The recorded revision of a number: the one listed, where each number is listed once. */
  lemma RevisionIsOnly(revisions: seq<RevisionEvidence>, r: RevisionEvidence)
    requires DistinctInts(RevisionNumbers(revisions)) && r in revisions
    ensures RevisionOf(revisions, r.prNumber) == Some(r)
  {
    var q := RevisionOf(revisions, r.prNumber).value;
    var i :| 0 <= i < |revisions| && revisions[i] == r;
    var j :| 0 <= j < |revisions| && revisions[j] == q;
    assert RevisionNumbers(revisions)[i] == RevisionNumbers(revisions)[j];
  }

  /** An item is accepted exactly when a row exists that binds it, its reason can be recorded and its number is new. */
  lemma BindsIff(w: Writer, members: seq<int>, revisions: seq<RevisionEvidence>, item: Item, taken: set<int>)
    requires DistinctInts(RevisionNumbers(revisions))
    ensures Bind(w, members, revisions, item, taken).Done? <==>
            && 1 <= |item.reason| <= 1000 && item.pr !in taken
            && exists row: Disposition :: BoundRow(w, members, revisions, item, row)
  {
    hide DistinctInts, RevisionNumbers;
    if Bind(w, members, revisions, item, taken).Done? { BindIsBound(w, members, revisions, item, taken); }
    if row: Disposition :| BoundRow(w, members, revisions, item, row) {
      RevisionIsOnly(revisions, row.revision);
      if row.target.Some? { RevisionIsOnly(revisions, row.target.value); }
    }
  }
}
