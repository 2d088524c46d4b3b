/**
 What the guards of the writers of triage/store.py mean: which evidence is current, which group an
 unnamed write is about, which pull request a draft is about, what a settled proposal answers, and
 which duplicate graph the check of one group is about.
 */
module WriterGuards {
  import opened Models
  import opened Duplicates
  import opened Records
  import opened GroupEvidence
  import opened GroupVerification
  import opened Active
  import opened ActiveMeaning
  import opened Stores
  import opened StoreRuns
  import opened StoreSafety
  import opened DuplicateSafety

  // ---- current evidence ----

  /**
   The row can be read in this store: its number is positive, it names no other repository, and its
   source is the store's, or the store has none; fixtures rows need not name theirs.
   */
  ghost predicate Readable(row: PrRow, repo: string, source: string, name: string) {
    && row.number > 0 && row.intact && (row.repo.None? || (repo != "" && row.repo.value == repo))
    && name in {"fixtures", "github"} && Names(if source != "" then source else row.source, name)
    && (Names(row.source, name) || (row.source == "" && name == "fixtures" && row.listsFiles))
  }

  /** The evidence of a number is current exactly when its only row can be read, as evidence of that source. */
  lemma CurrentIff(prs: seq<PrRow>, repo: string, source: string, n: int, r: RevisionEvidence)
    ensures var current := CurrentRevisions(prs, repo, source);
            n in current && current[n] == r <==>
            exists i: nat, name: string :: SoleRow(prs, i, n) && Readable(prs[i], repo, source, name)
                                           && r == prs[i].recorded.(prNumber := n, source := name)
  {
    hide RowsOf, StoredRevision, Readable;
    var at := OneRow(prs, n);
    RowsOfNumber(prs, n);
    if |RowsOf(prs, n)| == 1 {
      StoredIff(prs[at], repo, source, r);
      assert RowsOf(prs, n)[0] in RowsOf(prs, n);
    }
  }

  lemma StoredIff(row: PrRow, repo: string, source: string, r: RevisionEvidence)
    ensures StoredRevision(row, repo, source) == Done(r) <==>
            exists name :: Readable(row, repo, source, name)
                           && r == row.recorded.(prNumber := row.number, source := name)
  {
    var own := if source != "" then source else row.source;
    forall name | name in {"fixtures", "github"}
      ensures SourceKey(own) == name <==> Names(own, name)
      ensures SourceKey(row.source) == name <==> Names(row.source, name)
    {}
    var name := SourceKey(own);
    if StoredRevision(row, repo, source) == Done(r) { assert Readable(row, repo, source, name); }
  }

  // ---- the group of an unnamed write ----

  lemma {:induction false} NoneHolding(groups: seq<StoreGroup>, numbers: set<int>)
    ensures GroupsHolding(groups, numbers) == [] <==> forall i | 0 <= i < |groups| :: !HoldsAll(groups[i], numbers)
  {
    if groups != [] {
      NoneHolding(groups[1..], numbers);
      assert forall i | 0 < i < |groups| :: groups[i] == groups[1..][i - 1];
    }
  }

  ghost predicate OnlyHolding(groups: seq<StoreGroup>, numbers: set<int>, i: nat) {
    && i < |groups| && HoldsAll(groups[i], numbers)
    && forall j | 0 <= j < |groups| && HoldsAll(groups[j], numbers) :: j == i
  }

  lemma {:induction false} OneHolding(groups: seq<StoreGroup>, numbers: set<int>) returns (i: nat)
    ensures |GroupsHolding(groups, numbers)| == 1 ==>
              OnlyHolding(groups, numbers, i) && GroupsHolding(groups, numbers)[0] == groups[i]
    ensures |GroupsHolding(groups, numbers)| != 1 ==> forall k: nat :: !OnlyHolding(groups, numbers, k)
  {
    hide HoldsAll;
    i := 0;
    if groups != [] {
      var rest := groups[1..];
      NoneHolding(rest, numbers);
      if HoldsAll(groups[0], numbers) {
        forall k: nat | |GroupsHolding(groups, numbers)| != 1
          ensures !OnlyHolding(groups, numbers, k)
        {
          var j :| 0 <= j < |rest| && HoldsAll(rest[j], numbers);
          assert HoldsAll(groups[j + 1], numbers) && HoldsAll(groups[0], numbers);
        }
        assert forall j | 0 < j < |groups| :: groups[j] == rest[j - 1];
      } else {
        var k := OneHolding(rest, numbers);
        i := k + 1;
        forall m: nat | OnlyHolding(groups, numbers, m)
          ensures m > 0 && OnlyHolding(rest, numbers, m - 1)
        {
          assert forall j | 0 <= j < |rest| && HoldsAll(rest[j], numbers) :: HoldsAll(groups[j + 1], numbers);
        }
        assert forall j | 0 < j < |groups| :: groups[j] == rest[j - 1];
      }
    }
  }

  /** A write is about the group it names, or about the only one that has all its pull requests among its members. */
  lemma TargetIff(s: Store, gid: string, items: seq<Item>, target: string)
    ensures TargetGroup(s, gid, items) == Done(target) <==>
            if gid != "" then target == gid
            else
              && items != []
              && exists i: nat :: OnlyHolding(s.groups, ItemNumbers(items), i) && s.groups[i].groupId == target
    ensures forall i: nat | i < |s.groups| ::
              HoldsAll(s.groups[i], ItemNumbers(items)) <==> forall x | x in items :: x.pr in s.groups[i].prNumbers
  {
    hide GroupsHolding;
    var i := OneHolding(s.groups, ItemNumbers(items));
    forall i: nat | i < |s.groups|
      ensures HoldsAll(s.groups[i], ItemNumbers(items)) <==> forall x | x in items :: x.pr in s.groups[i].prNumbers
    {
      assert forall x | x in items :: x.pr in ItemNumbers(items);
    }
  }

  // ---- what a draft is about ----

  lemma {:induction false} FirstTargetIs(rows: seq<Disposition>)
    ensures FirstTarget(rows) == None || exists i :: FirstDuplicate(rows, i) && FirstTarget(rows) == rows[i].duplicateOf
    ensures (exists i :: FirstDuplicate(rows, i)) || FirstTarget(rows) == None
    ensures forall i | FirstDuplicate(rows, i) :: FirstTarget(rows) == rows[i].duplicateOf
  {
    if rows != [] {
      var rest := rows[1..];
      FirstTargetIs(rest);
      assert forall j | 0 <= j < |rest| :: rest[j] == rows[j + 1];
      if rows[0].kind.Duplicate? {
        assert FirstDuplicate(rows, 0);
      } else {
        forall i | FirstDuplicate(rest, i) ensures FirstDuplicate(rows, i + 1) && rows[i + 1] == rest[i] {}
        forall i | FirstDuplicate(rows, i) ensures i > 0 && FirstDuplicate(rest, i - 1) && rows[i] == rest[i - 1] {}
      }
    }
  }

  ghost predicate FirstDuplicate(rows: seq<Disposition>, i: int) {
    0 <= i < |rows| && rows[i].kind.Duplicate? && forall j | 0 <= j < i :: !rows[j].kind.Duplicate?
  }

  /** A draft is about the pull request its caller names, or the one its first duplicate names, or none. */
  lemma CanonicalIs(s: Store, call: DraftCall, a: Admitted, id: string)
    ensures var p := Drafted(s, call, a, id);
            if call.canonicalPr.Some? then p.canonicalPr == call.canonicalPr
            else if exists i :: FirstDuplicate(a.rows, i) then
              exists i :: FirstDuplicate(a.rows, i) && p.canonicalPr == a.rows[i].duplicateOf
            else p.canonicalPr == None
  {
    hide FirstTarget, FirstDuplicate;
    FirstTargetIs(a.rows);
  }

  // ---- what a settled proposal answers ----

  /**
   A proposal that is no longer open answers the action that settled it again, without change, and
   refuses every other action; an open one is never answered from its status.
   */
  lemma SettledAnswers(p: Proposal, action: Action)
    requires !action.Draw?
    ensures p.status in {Draft, Edited} ==> AlreadySettled(p, action) == None
    ensures p.status == Accepted ==>
              AlreadySettled(p, action) == Some(if action == Accept then Unchanged(p) else Refused(ProposalConflict))
    ensures p.status == Declined ==>
              AlreadySettled(p, action) == Some(if action == Decline then Unchanged(p) else Refused(ProposalConflict))
  {}

  // ---- the cycle check of one group ----

  /** The row is of the repository and about the current revision of its pull request. */
  ghost predicate IsCurrentRow(d: Disposition, repo: string, revisions: seq<RevisionEvidence>) {
    d.repo == repo && exists r :: r in revisions && r.prNumber == d.pr && SameRevision(d.revision, r)
  }

  /** Some current row says that n is a duplicate of m. */
  ghost predicate SaysDuplicate(rows: seq<Disposition>, repo: string, revisions: seq<RevisionEvidence>, n: int,
                                m: int) {
    exists d :: d in rows && IsCurrentRow(d, repo, revisions) && d.pr == n
                && d.kind.Duplicate? && d.duplicateOf == Some(m)
  }

  lemma CurrentRowIff(d: Disposition, repo: string, revisions: seq<RevisionEvidence>)
    requires DistinctInts(RevisionNumbers(revisions))
    ensures var r := RevisionOf(revisions, d.pr);
            IsCurrentRow(d, repo, revisions) <==> d.repo == repo && r.Some? && SameRevision(d.revision, r.value)
  {
    hide SameRevision, RevisionNumbers, DistinctInts;
    forall q | q in revisions && q.prNumber == d.pr
      ensures RevisionOf(revisions, d.pr) == Some(q)
    {
      RevisionIsOnly(revisions, q);
    }
  }

  /** The map holds exactly the current rows. */
  ghost predicate HoldsCurrent(c: map<int, Disposition>, rows: seq<Disposition>, repo: string,
                               revisions: seq<RevisionEvidence>) {
    && (forall d | d in rows && IsCurrentRow(d, repo, revisions) :: d.pr in c && c[d.pr] == d)
    && forall n | n in c :: c[n] in rows && IsCurrentRow(c[n], repo, revisions) && c[n].pr == n
  }

  lemma {:induction false} CurrentRowsAre(rows: seq<Disposition>, repo: string, revisions: seq<RevisionEvidence>)
    requires OneRowEach(rows) && DistinctInts(RevisionNumbers(revisions))
    ensures HoldsCurrent(CurrentRows(rows, repo, revisions), rows, repo, revisions)
  {
    hide SameRevision, RevisionNumbers, DistinctInts, RevisionOf, IsCurrentRow, HoldsCurrent;
    if rows == [] {
      assert HoldsCurrent(map[], rows, repo, revisions) by { NoneHeld(repo, revisions); }
    } else {
      var k := |rows| - 1;
      CurrentRowsAre(rows[..k], repo, revisions);
      CurrentRowIff(rows[k], repo, revisions);
      assert rows == rows[..k] + [rows[k]];
      HeldStep(CurrentRows(rows[..k], repo, revisions), rows[..k], rows[k], repo, revisions);
    }
  }

  lemma NoneHeld(repo: string, revisions: seq<RevisionEvidence>)
    ensures HoldsCurrent(map[], [], repo, revisions)
  {}

  lemma HeldStep(c: map<int, Disposition>, rows: seq<Disposition>, d: Disposition, repo: string,
                 revisions: seq<RevisionEvidence>)
    requires OneRowEach(rows + [d]) && HoldsCurrent(c, rows, repo, revisions)
    ensures HoldsCurrent(if IsCurrentRow(d, repo, revisions) then c[d.pr := d] else c, rows + [d], repo, revisions)
  {
    hide SameRevision;
    forall x | x in rows && x.repo == d.repo
      ensures x.pr != d.pr
    {
      var i :| 0 <= i < |rows| && rows[i] == x;
      assert (rows + [d])[i] == x && (rows + [d])[|rows|] == d;
    }
  }

  lemma LastRowIsNew(rows: seq<Disposition>)
    requires rows != [] && forall i, j | 0 <= i < j < |rows| :: rows[i].pr != rows[j].pr
    ensures var k := |rows| - 1;
            && (forall d :: d in rows <==> d in rows[..k] || d == rows[k])
            && (forall d | d in rows[..k] :: d.pr != rows[k].pr)
            && (forall n :: n in RowNumbers(rows) <==> n in RowNumbers(rows[..k]) || n == rows[k].pr)
            && (forall d | d in rows :: d.pr in RowNumbers(rows))
  {
    var k := |rows| - 1;
    assert rows == rows[..k] + [rows[k]];
  }

  /** Rows of different pull requests, each laid over the graph. */
  lemma {:induction false} LaidOver(g: Edges, rows: seq<Disposition>)
    requires forall i, j | 0 <= i < j < |rows| :: rows[i].pr != rows[j].pr
    ensures var e := EdgesFrom(g, rows);
            && (forall d | d in rows :: d.pr in e <==> PointsOn(d))
            && (forall d | d in rows && PointsOn(d) :: e[d.pr] == d.duplicateOf.value)
            && forall n | n !in RowNumbers(rows) :: (n in e <==> n in g) && (n in g ==> e[n] == g[n])
  {
    hide RowNumbers;
    if rows != [] {
      var k := |rows| - 1;
      LaidOver(g, rows[..k]);
      LastRowIsNew(rows);
    }
  }

  /** The check that a write must pass is over what the group's current rows will say once it is recorded. */
  lemma LocalCheckIff(s: Store, w: Writer, gid: string, revisions: seq<RevisionEvidence>, rows: seq<Disposition>,
                      id: string) returns (g: Edges)
    requires SoundRows(s.dispositions) && DistinctInts(RevisionNumbers(revisions))
    requires EachBound(rows) && forall d | d in rows :: IsCurrentRow(d, w.repo, revisions)
    requires forall i, j | 0 <= i < j < |rows| :: rows[i].pr != rows[j].pr
    ensures LocallyAcyclic(s, w.repo, revisions, rows) <==> Acyclic(g)
    ensures forall n, m :: n in g && g[n] == m <==>
              SaysDuplicate(Applied(s, w, gid, rows, id).dispositions, w.repo, revisions, n, m)
  {
    hide CurrentRows, EdgesFrom, WithoutRows, DistinctInts, RevisionNumbers, Acyclic, IsCurrentRow, SaysDuplicate;
    g := EdgesFrom(EdgesOf(CurrentRows(s.dispositions, w.repo, revisions)), rows);
    var after := Applied(s, w, gid, rows, id).dispositions;
    forall n, m
      ensures n in g && g[n] == m <==> SaysDuplicate(after, w.repo, revisions, n, m)
    {
      if n in RowNumbers(rows) {
        SaysNew(s, w, gid, revisions, rows, id, n, m);
      } else {
        SaysOld(s, w, gid, revisions, rows, id, n, m);
      }
    }
  }

  lemma SaysNew(s: Store, w: Writer, gid: string, revisions: seq<RevisionEvidence>, rows: seq<Disposition>, id: string,
                n: int, m: int)
    requires SoundRows(s.dispositions) && n in RowNumbers(rows)
    requires forall d | d in rows :: IsCurrentRow(d, w.repo, revisions)
    requires forall i, j | 0 <= i < j < |rows| :: rows[i].pr != rows[j].pr
    ensures var g := EdgesFrom(EdgesOf(CurrentRows(s.dispositions, w.repo, revisions)), rows);
            n in g && g[n] == m <==> SaysDuplicate(Applied(s, w, gid, rows, id).dispositions, w.repo, revisions, n, m)
  {
    hide CurrentRows, EdgesFrom, WithoutRows, SameRevision, OneRowEach, EachBound, EdgesOf;
    var g := EdgesOf(CurrentRows(s.dispositions, w.repo, revisions));
    LaidOver(g, rows);
    var d :| d in rows && d.pr == n;
    var i :| 0 <= i < |rows| && rows[i] == d;
    var done := Stamped(rows, id);
    WithoutRowsMembers(s.dispositions, w.repo, RowNumbers(done));
    assert done[i] in done && done[i].pr == n;
    var after := Applied(s, w, gid, rows, id).dispositions;
    assert IsCurrentRow(done[i], w.repo, revisions);
    forall x | x in after && x.repo == w.repo && x.pr == n
      ensures x == done[i]
    {
      assert x in done;
    }
  }

  lemma SaysOld(s: Store, w: Writer, gid: string, revisions: seq<RevisionEvidence>, rows: seq<Disposition>, id: string,
                n: int, m: int)
    requires SoundRows(s.dispositions) && DistinctInts(RevisionNumbers(revisions)) && n !in RowNumbers(rows)
    requires forall i, j | 0 <= i < j < |rows| :: rows[i].pr != rows[j].pr
    ensures var g := EdgesFrom(EdgesOf(CurrentRows(s.dispositions, w.repo, revisions)), rows);
            n in g && g[n] == m <==> SaysDuplicate(Applied(s, w, gid, rows, id).dispositions, w.repo, revisions, n, m)
  {
    hide CurrentRows, EdgesFrom, WithoutRows, SameRevision, DistinctInts, RevisionNumbers, IsCurrentRow;
    var c := CurrentRows(s.dispositions, w.repo, revisions);
    LaidOver(EdgesOf(c), rows);
    CurrentRowsAre(s.dispositions, w.repo, revisions);
    var done := Stamped(rows, id);
    WithoutRowsMembers(s.dispositions, w.repo, RowNumbers(done));
    var after := Applied(s, w, gid, rows, id).dispositions;
    forall x | x in done
      ensures x.pr != n
    {
      var i :| 0 <= i < |done| && done[i] == x;
      assert rows[i] in rows;
    }
    assert n !in RowNumbers(done);
    forall d: Disposition | d.pr == n
      ensures d in after <==> d in s.dispositions
    {}
  }

  // ---- over every run ----

  lemma SortedAreDistinct(numbers: seq<int>)
    requires SoundMembers(numbers)
    ensures DistinctInts(SortNumbers(numbers))
  {
    SortNumbersAscends(numbers);
  }

  /** Items bound to a verified group are about its current revisions, one row for each pull request. */
  lemma BoundRowsAreCurrent(s: Store, gid: string, w: Writer, reader: Reader, v: Verified, items: seq<Item>)
    requires GroupForWrite(s, gid, reader) == Done(v) && BindItems(w, v.group.prNumbers, v.revisions, items).Done?
    ensures var rows := BindItems(w, v.group.prNumbers, v.revisions, items).value;
            && DistinctInts(RevisionNumbers(v.revisions))
            && EachBound(rows) && (forall d | d in rows :: IsCurrentRow(d, w.repo, v.revisions))
            && forall i, j | 0 <= i < j < |rows| :: rows[i].pr != rows[j].pr
  {
    hide VerifyGroup, BoundTo, Digest, RevisionNumbers, BindFirst, DistinctInts;
    VerifiedIsBound(s, gid, reader);
    SortedAreDistinct(v.group.prNumbers);
    BoundItems(w, v.group.prNumbers, v.revisions, items, |items|);
  }

  /** After a committed write of dispositions no current rows of the group lie on a cycle. */
  lemma SavedGroupIsAcyclic(commands: seq<Command>, call: DispositionCall, key: string, e: Expect, reader: Reader,
                            id: string)
    returns (gid: string, v: Verified, g: Edges)
    requires SaveDispositions(Run(EMPTY_STORE, commands), call, key, e, reader, id).Committed?
    ensures var s := Run(EMPTY_STORE, commands);
            var s' := SaveDispositions(s, call, key, e, reader, id).store;
            && GroupForWrite(s, gid, reader) == Done(v) && Acyclic(g)
            && forall n, m :: n in g && g[n] == m <==> SaysDuplicate(s'.dispositions, s.repo, v.revisions, n, m)
  {
    hide Run, SaveDispositions, GroupForWrite, BindItems, Applied, LocallyAcyclic, SaysDuplicate, Acyclic, SoundRows,
         DistinctInts, RevisionNumbers, IsCurrentRow, QueueOf;
    var s := Run(EMPTY_STORE, commands);
    RunKeepsSound(EMPTY_STORE, commands) by { EmptyIsSound(); }
    var w := Writer(s.repo, call.actor, call.source, call.requireComplete);
    var a;
    gid, a := DispositionsFrame(s, call, key, e, reader, id);
    v := a.verified;
    BoundRowsAreCurrent(s, gid, w, reader, v, call.items);
    g := LocalCheckIff(s, w, v.group.groupId, v.revisions, a.rows, id);
  }

  lemma EmptyIsSound()
    ensures SoundRows(EMPTY_STORE.dispositions)
  {}

  /** After an acceptance no current rows of the proposal's group lie on a cycle. */
  lemma AcceptedGroupIsAcyclic(commands: seq<Command>, call: TransitionCall, key: string, e: Expect, reader: Reader,
                               eventId: string, decisionId: string)
    returns (p: Proposal, v: Verified, g: Edges)
    requires call.action.Accept?
             && TransitionProposal(Run(EMPTY_STORE, commands), call, key, e, reader, eventId, decisionId).Committed?
    ensures var s := Run(EMPTY_STORE, commands);
            var s' := TransitionProposal(s, call, key, e, reader, eventId, decisionId).store;
            && FindProposal(s, call.proposalId) == Some(p) && GroupForWrite(s, p.groupId, reader) == Done(v)
            && Acyclic(g)
            && forall n, m :: n in g && g[n] == m <==> SaysDuplicate(s'.dispositions, s.repo, v.revisions, n, m)
  {
    hide Run, TransitionProposal, GroupForWrite, BindItems, Applied, LocallyAcyclic, SaysDuplicate, Acyclic, SoundRows,
         DistinctInts, RevisionNumbers, IsCurrentRow, Digest, Replaced, AsItems;
    var s := Run(EMPTY_STORE, commands);
    RunKeepsSound(EMPTY_STORE, commands) by { EmptyIsSound(); }
    var w := Writer(s.repo, call.actor, "human", true);
    var a;
    p, a := TransitionFrame(s, call, key, e, reader, eventId, decisionId);
    v := a.verified;
    BoundRowsAreCurrent(s, p.groupId, w, reader, v, Or(call.items, AsItems(p.items)));
    g := LocalCheckIff(s, w, v.group.groupId, v.revisions, a.rows, decisionId);
  }
}
