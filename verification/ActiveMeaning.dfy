/**
 What makes a recorded row count, of triage/queue.py: the reader's validator accepts exactly the
 rows that the writer of triage/store.py would accept again, unchanged, with complete evidence.
 */
module ActiveMeaning {
  import opened Order
  import opened Models
  import opened Duplicates
  import opened Records
  import opened GroupEvidence
  import opened GroupVerification
  import opened Active

  // ---- one row ----

  /** `revisions` lists the current evidence, each pull request once, and `members` its numbers. */
  ghost predicate Lists(current: Revisions, members: seq<int>, revisions: seq<RevisionEvidence>) {
    && DistinctInts(RevisionNumbers(revisions)) && (forall n :: n in members <==> n in current)
    && (forall n | n in current :: n > 0 && current[n] in revisions && current[n].prNumber == n)
    && forall r | r in revisions :: r.prNumber in current && current[r.prNumber] == r
  }

  /** The row says of which pull requests its revisions are, and is complete where it keeps or points. */
  ghost predicate SelfContained(d: Disposition) {
    && d.revision.prNumber == d.pr && (d.kind.Keep? || d.kind.Duplicate? ==> d.revision.evidenceComplete)
    && (d.kind.Duplicate? ==>
          && d.duplicateOf.Some? && d.target.Some? && d.target.value.prNumber == d.duplicateOf.value
          && d.target.value.evidenceComplete)
  }

  /** A row counts by itself exactly when submitting it again, as it is, would be accepted with complete evidence. */
  lemma ValidIffAcceptedAgain(d: Disposition, current: Revisions, members: seq<int>, revisions: seq<RevisionEvidence>)
    requires Lists(current, members, revisions)
    ensures ValidAlone(d, current) <==>
            && SelfContained(d)
            && Bind(Writer(d.repo, d.actor, d.source, true), members, revisions, AsItem(d), {}).Done?
  {
    hide DistinctInts, RevisionNumbers;
    if d.pr in current { RevisionIsOnly(revisions, current[d.pr]); }
    if d.duplicateOf.Some? && d.duplicateOf.value in current {
      var n := d.duplicateOf.value;
      assert current[n] in revisions && current[n].prNumber == n;
      RevisionIsOnly(revisions, current[n]);
    }
  }

  // ---- the evidence source ----

  /** `gh` is an old name of `github`. */
  predicate Names(source: string, name: string) { source == name || (source == "gh" && name == "github") }

  /** Rows must come from this source: the one given, or else the only one that the evidence names. */
  ghost predicate Sourced(given: string, current: Revisions, name: string) {
    if given != "" then Names(given, name)
    else
      && (exists n | n in current :: current[n].source != "" && Names(current[n].source, name))
      && forall n | n in current :: current[n].source != "" ==> Names(current[n].source, name)
  }

  lemma SourcedIff(given: string, current: Revisions, name: string)
    requires name in {"fixtures", "github"}
    ensures ActiveSource(given, current) == name <==> Sourced(given, current, name)
  {
    hide Sources;
    if given == "" {
      var all := Sources(current);
      SourcesNamed(current, name);
      if |all| == 1 {
        var x := SortedStrings(all)[0];
        assert x in SortedStrings(all);
        OnlyElement(all, x);
      }
    }
  }

  lemma SourcesNamed(current: Revisions, name: string)
    requires name in {"fixtures", "github"}
    ensures Sources(current) == {name} <==>
            && (exists n | n in current :: current[n].source != "" && Names(current[n].source, name))
            && forall n | n in current :: current[n].source != "" ==> Names(current[n].source, name)
  {
    var all := Sources(current);
    forall n | n in current && current[n].source != ""
      ensures SourceKey(current[n].source) in all
      ensures SourceKey(current[n].source) == name <==> Names(current[n].source, name)
    {}
    if all == {name} {
      assert name in all;
      var n :| n in current && current[n].source != "" && SourceKey(current[n].source) == name;
    }
    if n :| n in current && current[n].source != "" && Names(current[n].source, name)
            && forall n | n in current :: current[n].source != "" ==> Names(current[n].source, name) {
      assert name in all && forall x | x in all :: x == name;
    }
  }

  lemma OnlyElement<T>(s: set<T>, x: T)
    requires |s| == 1 && x in s
    ensures s == {x}
  {
    assert |s - {x}| == 0;
  }

  // ---- all rows ----

  /** The evidence of this source that is filed under its own positive number. */
  ghost predicate FromSource(current: Revisions, name: string, usable: Revisions) {
    && (forall n :: n in usable <==>
          n in current && n > 0 && current[n].prNumber == n && Names(current[n].source, name))
    && forall n | n in usable :: usable[n] == current[n]
  }

  /**
   A row is active exactly when the repository and one of the two sources are known and, on the evidence
   of that source, it counts and lies on no cycle of the rows that count.
   */
  lemma ActiveIff(rows: seq<Disposition>, current: Revisions, repo: string, source: string, d: Disposition)
    ensures var active := ActiveOf(rows, current, repo, source);
            d.pr in active && active[d.pr] == d <==>
            && repo != ""
            && exists name, usable: Revisions | name in {"fixtures", "github"} ::
                 && Sourced(source, current, name) && FromSource(current, name, usable)
                 && Counts(rows, repo, usable, d) && !OnCycle(EdgesOf(Candidates(rows, repo, usable)), d.pr)
  {
    hide Counts, Candidates, EdgesOf, ActiveSource, Sourced, ActiveRows;
    var key := ActiveSource(source, current);
    var usable := Usable(current, key);
    if key in {"fixtures", "github"} {
      assert FromSource(current, key, usable);
      ActiveIsExact(rows, repo, usable, d);
    }
    forall name | name in {"fixtures", "github"}
      ensures Sourced(source, current, name) <==> name == key
    {
      SourcedIff(source, current, name);
    }
    forall other | key in {"fixtures", "github"} && FromSource(current, key, other)
      ensures other == usable
    {
      assert forall n :: n in other <==> n in usable;
    }
  }

  /** The graph of the rows that count: an edge for each duplicate, to the pull request it names. */
  lemma CandidateEdges(rows: seq<Disposition>, repo: string, current: Revisions, n: int, m: int)
    ensures var g := EdgesOf(Candidates(rows, repo, current));
            n in g && g[n] == m <==>
            exists d :: Counts(rows, repo, current, d) && d.pr == n && d.kind.Duplicate? && d.duplicateOf == Some(m)
  {
    hide ValidAlone, CountOf;
    var c := Candidates(rows, repo, current);
    if d :| Counts(rows, repo, current, d) && d.pr == n && d.kind.Duplicate? && d.duplicateOf == Some(m) {
      assert c[n] == d;
    }
    if n in EdgesOf(c) && EdgesOf(c)[n] == m {
      assert Counts(rows, repo, current, c[n]);
    }
  }
}
