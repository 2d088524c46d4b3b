/**
 The dispositions that still count, of triage/queue.py: one row per pull request, about
 exactly the current revisions, and never on a cycle of duplicates.
 */
module Active {
  import opened Order
  import opened Models
  import opened Duplicates
  import opened Records
  import opened GroupEvidence

  type Revisions = map<int, RevisionEvidence>

  function Sources(current: Revisions): set<string> {
    set n | n in current && current[n].source != "" :: SourceKey(current[n].source)
  }

  /** The source that rows must come from: the given one, or the only one there is. */
  function ActiveSource(given: string, current: Revisions): string {
    if given != "" then SourceKey(given)
    else if |Sources(current)| == 1 then SortedStrings(Sources(current))[0]
    else ""
  }

  /** Revisions filed under their own positive number and from the active source. */
  function Usable(current: Revisions, source: string): Revisions {
    map n | n in current && n > 0 && current[n].prNumber == n && SourceKey(current[n].source) == source :: current[n]
  }

  function CountOf(rows: seq<Disposition>, repo: string, n: int): nat {
    if rows == [] then 0 else
      CountOf(rows[..|rows| - 1], repo, n) +
      (if rows[|rows| - 1].repo == repo && rows[|rows| - 1].pr == n then 1 else 0)
  }

  predicate MatchesCurrent(revision: RevisionEvidence, current: Revisions, n: int) {
    n in current && revision.prNumber == n && SameRevision(revision, current[n])
  }

  /** Everything `active_dispositions` demands of one row by itself. */
  predicate ValidAlone(d: Disposition, current: Revisions) {
    && d.pr > 0 && NonBlank(d.reason) && MatchesCurrent(d.revision, current, d.pr)
    && (d.kind.Keep? || d.kind.Duplicate? ==> d.revision.evidenceComplete && current[d.pr].evidenceComplete)
    && if !d.kind.Duplicate? then d.duplicateOf.None? && d.target.None?
       else
         && d.duplicateOf.Some? && d.target.Some? && d.duplicateOf.value > 0 && d.duplicateOf.value != d.pr
         && MatchesCurrent(d.target.value, current, d.duplicateOf.value)
         && d.target.value.evidenceComplete && current[d.duplicateOf.value].evidenceComplete
  }

  /** A row of the repository that is valid and the only one for its number. */
  ghost predicate Counts(rows: seq<Disposition>, repo: string, current: Revisions, d: Disposition) {
    d in rows && d.repo == repo && ValidAlone(d, current) && CountOf(rows, repo, d.pr) == 1
  }

  lemma CountsOnce(rows: seq<Disposition>, repo: string, current: Revisions, a: Disposition, b: Disposition)
    requires Counts(rows, repo, current, a) && Counts(rows, repo, current, b) && a.pr == b.pr
    ensures a == b
  {
    if a != b { OnlyRow(rows, repo, a, b); }
  }

  ghost function Candidates(rows: seq<Disposition>, repo: string, current: Revisions): (c: map<int, Disposition>)
    ensures forall n | n in c :: c[n].pr == n && Counts(rows, repo, current, c[n])
    ensures forall d | Counts(rows, repo, current, d) :: d.pr in c && c[d.pr] == d
  {
    forall a, b | Counts(rows, repo, current, a) && Counts(rows, repo, current, b) && a.pr == b.pr
      ensures a == b
    {
      CountsOnce(rows, repo, current, a, b);
    }
    map d | d in rows && Counts(rows, repo, current, d) :: d.pr := d
  }

  function EdgesOf(candidates: map<int, Disposition>): Edges {
    map n | n in candidates && PointsOn(candidates[n]) :: candidates[n].duplicateOf.value
  }

  /** Exactly the candidates that lie on no cycle. */
  ghost function ActiveRows(rows: seq<Disposition>, repo: string, current: Revisions): map<int, Disposition> {
    var candidates := Candidates(rows, repo, current);
    candidates - CycleNumbers(EdgesOf(candidates))
  }

  ghost function ActiveOf(rows: seq<Disposition>, currentRevisions: Revisions, repo: string, source: string): map<int,
                          Disposition> {
    var key := ActiveSource(source, currentRevisions);
    if repo == "" || key !in {"fixtures", "github"} then map[]
    else ActiveRows(rows, repo, Usable(currentRevisions, key))
  }

  lemma {:induction false} OnlyRow(rows: seq<Disposition>, repo: string, a: Disposition, b: Disposition)
    requires a in rows && b in rows && a.repo == b.repo == repo && a.pr == b.pr && a != b
    ensures CountOf(rows, repo, a.pr) >= 2
  {
    var n := |rows| - 1;
    assert rows == rows[..n] + [rows[n]];
    if a in rows[..n] && b in rows[..n] {
      OnlyRow(rows[..n], repo, a, b);
    } else if a in rows[..n] {
      CountAtLeastOne(rows[..n], repo, a);
    } else {
      CountAtLeastOne(rows[..n], repo, b);
    }
  }

  lemma {:induction false} CountAtLeastOne(rows: seq<Disposition>, repo: string, a: Disposition)
    requires a in rows && a.repo == repo
    ensures CountOf(rows, repo, a.pr) >= 1
  {
    var n := |rows| - 1;
    assert rows == rows[..n] + [rows[n]];
    if a in rows[..n] { CountAtLeastOne(rows[..n], repo, a); }
  }

  lemma {:induction false} CountWithout(rows: seq<Disposition>, repo: string, n: int, i: nat)
    requires i < |rows|
    ensures CountOf(rows, repo, n) ==
              CountOf(rows[..i] + rows[i + 1..], repo, n) + (if rows[i].repo == repo && rows[i].pr == n then 1 else 0)
  {
    var k := |rows| - 1;
    if i == k {
      assert rows[..i] + rows[i + 1..] == rows[..k];
    } else {
      CountWithout(rows[..k], repo, n, i);
      assert (rows[..i] + rows[i + 1..])[..k - 1] == rows[..k][..i] + rows[..k][i + 1..];
    }
  }

  lemma WithoutRow(rows: seq<Disposition>, repo: string, n: int, d: Disposition) returns (rest: seq<Disposition>)
    requires d in rows
    ensures |rest| == |rows| - 1 && multiset(rows) == multiset(rest) + multiset{d}
    ensures CountOf(rows, repo, n) == CountOf(rest, repo, n) + (if d.repo == repo && d.pr == n then 1 else 0)
  {
    hide CountOf;
    var i :| 0 <= i < |rows| && rows[i] == d;
    rest := rows[..i] + rows[i + 1..];
    assert rows == rows[..i] + [d] + rows[i + 1..];
    CountWithout(rows, repo, n, i);
  }

  lemma {:induction false} CountIsMultiplicity(rows: seq<Disposition>, rows': seq<Disposition>, repo: string, n: int)
    requires multiset(rows) == multiset(rows')
    ensures CountOf(rows, repo, n) == CountOf(rows', repo, n)
    decreases |rows|
  {
    assert |multiset(rows)| == |rows| && |multiset(rows')| == |rows'|;
    if rows == [] {
      assert rows' == [];
    } else {
      var d := rows[0];
      assert d in multiset(rows');
      var a := WithoutRow(rows, repo, n, d);
      var b := WithoutRow(rows', repo, n, d);
      SameRest(multiset(a), multiset(b), d);
      CountIsMultiplicity(a, b, repo, n);
    }
  }

  lemma SameRest<T>(a: multiset<T>, b: multiset<T>, x: T)
    requires a + multiset{x} == b + multiset{x}
    ensures a == b
  {
    assert a == (a + multiset{x}) - multiset{x};
    assert b == (b + multiset{x}) - multiset{x};
  }

  /** The answer depends on which rows there are, not on their order. */
  lemma ActiveOrderIndependent(rows: seq<Disposition>, rows': seq<Disposition>, current: Revisions, repo: string,
                               source: string)
    requires multiset(rows) == multiset(rows')
    ensures ActiveOf(rows, current, repo, source) == ActiveOf(rows', current, repo, source)
  {
    hide ValidAlone, CountOf;
    var usable := Usable(current, ActiveSource(source, current));
    forall d
      ensures Counts(rows, repo, usable, d) <==> Counts(rows', repo, usable, d)
    {
      assert d in multiset(rows) <==> d in multiset(rows');
      CountIsMultiplicity(rows, rows', repo, d.pr);
    }
    assert Candidates(rows, repo, usable) == Candidates(rows', repo, usable);
  }

  /** A row is active when it counts and lies on no cycle of the rows that count; what is left has no cycle. */
  lemma ActiveIsExact(rows: seq<Disposition>, repo: string, current: Revisions, d: Disposition)
    ensures d.pr in ActiveRows(rows, repo, current) && ActiveRows(rows, repo, current)[d.pr] == d <==>
              Counts(rows, repo, current, d) && !OnCycle(EdgesOf(Candidates(rows, repo, current)), d.pr)
    ensures Acyclic(EdgesOf(ActiveRows(rows, repo, current)))
  {
    hide Counts;
    var c := Candidates(rows, repo, current);
    PartIsAcyclic(EdgesOf(c), EdgesOf(ActiveRows(rows, repo, current)));
  }

  /** Validating the active rows once more drops none of them. */
  lemma ActiveAgain(rows: seq<Disposition>, repo: string, current: Revisions, again: seq<Disposition>)
    requires var active := ActiveRows(rows, repo, current);
             && (forall i, j | 0 <= i < j < |again| :: again[i].pr != again[j].pr)
             && forall d :: d in again <==> d.pr in active && active[d.pr] == d
    ensures ActiveRows(again, repo, current) == ActiveRows(rows, repo, current)
  {
    hide ValidAlone, CountOf;
    var active := ActiveRows(rows, repo, current);
    forall d
      ensures Counts(again, repo, current, d) <==> d in again
    {
      if d in again { CountDistinct(again, repo, d); }
    }
    assert Candidates(again, repo, current) == active;
    ActiveAcyclic(rows, repo, current);
  }

  lemma ActiveAcyclic(rows: seq<Disposition>, repo: string, current: Revisions)
    ensures CycleNumbers(EdgesOf(ActiveRows(rows, repo, current))) == {}
  {
    hide Counts;
    PartIsAcyclic(EdgesOf(Candidates(rows, repo, current)), EdgesOf(ActiveRows(rows, repo, current)));
  }

  lemma {:induction false} CountDistinct(rows: seq<Disposition>, repo: string, d: Disposition)
    requires d in rows && d.repo == repo
    requires forall i, j | 0 <= i < j < |rows| :: rows[i].pr != rows[j].pr
    ensures CountOf(rows, repo, d.pr) == 1
  {
    var n := |rows| - 1;
    assert rows == rows[..n] + [rows[n]];
    if d == rows[n] {
      CountNone(rows[..n], repo, d.pr);
    } else {
      assert d in rows[..n];
      CountDistinct(rows[..n], repo, d);
      var i :| 0 <= i < n && rows[i] == d;
      assert rows[i].pr != rows[n].pr;
    }
  }

  lemma {:induction false} CountNone(rows: seq<Disposition>, repo: string, n: int)
    requires forall i | 0 <= i < |rows| :: rows[i].pr != n
    ensures CountOf(rows, repo, n) == 0
  {
    if rows != [] { CountNone(rows[..|rows| - 1], repo, n); }
  }

  // ---- the loops ----

  method CountNumbers(rows: seq<Disposition>, repo: string) returns (counts: map<int, nat>)
    ensures forall n | n > 0 :: (if n in counts then counts[n] else 0) == CountOf(rows, repo, n)
  {
    counts := map[];
    for i := 0 to |rows|
      invariant forall n | n > 0 :: (if n in counts then counts[n] else 0) == CountOf(rows[..i], repo, n)
    {
      var d := rows[i];
      assert rows[..i + 1][..i] == rows[..i];
      if d.repo == repo && d.pr > 0 {
        counts := counts[d.pr := (if d.pr in counts then counts[d.pr] else 0) + 1];
      }
    }
    assert rows[..|rows|] == rows;
  }

  ghost predicate CandidatesOf(candidates: map<int, Disposition>, rows: seq<Disposition>, i: nat, repo: string,
                               current: Revisions)
    requires i <= |rows|
  {
    && (forall n | n in candidates :: candidates[n].pr == n && Counts(rows, repo, current, candidates[n]))
    && (forall j | 0 <= j < i && Counts(rows, repo, current, rows[j]) ::
          rows[j].pr in candidates && candidates[rows[j].pr] == rows[j])
  }

  lemma CandidatesStep(candidates: map<int, Disposition>, rows: seq<Disposition>, i: nat, repo: string,
                       current: Revisions)
    requires i < |rows| && CandidatesOf(candidates, rows, i, repo, current)
    ensures Counts(rows, repo, current, rows[i]) ==>
              CandidatesOf(candidates[rows[i].pr := rows[i]], rows, i + 1, repo, current)
    ensures !Counts(rows, repo, current, rows[i]) ==> CandidatesOf(candidates, rows, i + 1, repo, current)
  {
    hide ValidAlone, CountOf;
    if Counts(rows, repo, current, rows[i]) {
      forall j | 0 <= j < i && Counts(rows, repo, current, rows[j]) && rows[j].pr == rows[i].pr
        ensures rows[j] == rows[i]
      {
        if rows[j] != rows[i] { OnlyRow(rows, repo, rows[j], rows[i]); }
      }
    }
  }

  method FindCandidates(rows: seq<Disposition>, repo: string,
                        current: Revisions) returns (candidates: map<int, Disposition>)
    ensures candidates == Candidates(rows, repo, current)
  {
    hide ValidAlone, CountOf;
    var counts := CountNumbers(rows, repo);
    candidates := map[];
    for i := 0 to |rows|
      invariant CandidatesOf(candidates, rows, i, repo, current)
    {
      var d := rows[i];
      CandidatesStep(candidates, rows, i, repo, current);
      ValidIsPositive(d, current);
      if d.repo == repo && d.pr in counts && counts[d.pr] == 1 && ValidAlone(d, current) {
        candidates := candidates[d.pr := d];
      }
    }
    AllCandidates(candidates, rows, repo, current);
  }

  lemma AllCandidates(candidates: map<int, Disposition>, rows: seq<Disposition>, repo: string, current: Revisions)
    requires CandidatesOf(candidates, rows, |rows|, repo, current)
    ensures candidates == Candidates(rows, repo, current)
  {
    hide ValidAlone, CountOf;
    var all := Candidates(rows, repo, current);
    forall n | n in all
      ensures n in candidates && candidates[n] == all[n]
    {
      var j :| 0 <= j < |rows| && rows[j] == all[n];
      assert Counts(rows, repo, current, rows[j]);
    }
    forall n | n in candidates
      ensures n in all
    {
      assert Counts(rows, repo, current, candidates[n]);
    }
  }

  lemma ValidIsPositive(d: Disposition, current: Revisions)
    ensures ValidAlone(d, current) ==> d.pr > 0
  {}

  /** `active_dispositions`. */
  method ActiveDispositions(rows: seq<Disposition>, currentRevisions: Revisions, repo: string, source: string)
    returns (active: map<int, Disposition>)
    ensures active == ActiveOf(rows, currentRevisions, repo, source)
  {
    var key := ActiveSource(source, currentRevisions);
    if repo == "" || key !in {"fixtures", "github"} {
      return map[];
    }
    var candidates := FindCandidates(rows, repo, Usable(currentRevisions, key));
    var graph := EdgesOf(candidates);
    var cyclic := FindCycleNumbers(graph, SortedInts(graph.Keys));
    active := candidates - cyclic;
  }
}
