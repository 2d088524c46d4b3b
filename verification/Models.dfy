/** The records of triage/models.py that the other components exchange. */
module Models {
  import opened Order

  datatype Option<+T> = None | Some(value: T)

  /** The content-bound revision of one pull request. */
  datatype RevisionEvidence = RevisionEvidence(
    prNumber: int, headSha: string, baseSha: string,
    additions: Option<nat>, deletions: Option<nat>,
    contentDigest: string, evidenceComplete: bool, source: string, cacheSnapshotId: string)

  /** `paths` is the sorted list of changed paths; `evidence` the result of `revision_evidence()`. */
  datatype PullRequest = PullRequest(
    number: int, title: string, fingerprint: string, paths: seq<string>, evidence: RevisionEvidence)
  {
    function PathSet(): set<string> { set p | p in paths }
  }

  /**
   A file-set group. Hashes are represented by the material they are taken over:
   `signature` by the sorted list of all paths, `pathSignatures` by each member's path list.
   */
  datatype Group = Group(
    groupId: string, repo: string, prNumbers: seq<int>,
    fingerprints: seq<string>, sharedFiles: seq<string>, titleVariants: seq<string>,
    signature: seq<string>,
    memberRevisions: seq<RevisionEvidence>, pathSignatures: map<int, seq<string>>)

  ghost predicate DistinctNumbers(prs: seq<PullRequest>) {
    forall i, j | 0 <= i < j < |prs| :: prs[i].number != prs[j].number
  }

  /** `sorted` on integers that may repeat. */
  function InsertNumber(n: int, s: seq<int>): seq<int> {
    if s == [] || n < s[0] then [n] + s else [s[0]] + InsertNumber(n, s[1..])
  }

  function SortNumbers(s: seq<int>): seq<int> {
    if s == [] then [] else InsertNumber(s[0], SortNumbers(s[1..]))
  }

  lemma {:induction false} InsertNumberAdds(n: int, s: seq<int>)
    ensures multiset(InsertNumber(n, s)) == multiset(s) + multiset{n}
  {
    if s != [] && n >= s[0] {
      InsertNumberAdds(n, s[1..]);
      assert s == [s[0]] + s[1..];
    }
  }

  lemma {:induction false} InsertNumberSorts(n: int, s: seq<int>)
    requires forall i, j | 0 <= i < j < |s| :: s[i] <= s[j]
    ensures var r := InsertNumber(n, s);
            && multiset(r) == multiset(s) + multiset{n}
            && forall i, j | 0 <= i < j < |r| :: r[i] <= r[j]
  {
    InsertNumberAdds(n, s);
    if s == [] || n < s[0] {
    } else {
      var rest := InsertNumber(n, s[1..]);
      InsertNumberSorts(n, s[1..]);
      forall j | 0 <= j < |rest|
        ensures s[0] <= rest[j]
      {
        assert rest[j] in multiset(rest);
        assert rest[j] in multiset(s[1..]) || rest[j] == n;
        if rest[j] in multiset(s[1..]) {
          var k :| 0 <= k < |s[1..]| && s[1..][k] == rest[j];
          assert s[k + 1] == rest[j];
        }
      }
    }
  }

  lemma {:induction false} SortNumbersSorts(s: seq<int>)
    ensures multiset(SortNumbers(s)) == multiset(s)
    ensures forall i, j | 0 <= i < j < |SortNumbers(s)| :: SortNumbers(s)[i] <= SortNumbers(s)[j]
  {
    if s != [] {
      SortNumbersSorts(s[1..]);
      InsertNumberSorts(s[0], SortNumbers(s[1..]));
      assert s == [s[0]] + s[1..];
    }
  }

  predicate Ascends(s: seq<int>) { forall i, j | 0 <= i < j < |s| :: s[i] < s[j] }

  lemma {:induction false} InsertNumberAscends(n: int, s: seq<int>)
    requires Ascends(s) && n !in s
    ensures Ascends(InsertNumber(n, s)) && forall x :: x in InsertNumber(n, s) <==> x == n || x in s
  {
    if s != [] {
      assert s == [s[0]] + s[1..];
      InsertNumberAscends(n, s[1..]);
      var rest := InsertNumber(n, s[1..]);
      forall k | 0 <= k < |rest| && s[0] < n ensures s[0] < rest[k] { assert rest[k] in rest; }
    }
  }

  /** Sorting different numbers lists them in ascending order. */
  lemma {:induction false} SortNumbersAscends(s: seq<int>)
    requires forall i, j | 0 <= i < j < |s| :: s[i] != s[j]
    ensures Ascends(SortNumbers(s)) && forall x :: x in SortNumbers(s) <==> x in s
  {
    if s != [] {
      assert s == [s[0]] + s[1..];
      SortNumbersAscends(s[1..]);
      InsertNumberAscends(s[0], SortNumbers(s[1..]));
    }
  }

  lemma {:induction false} SortNumbersOfSorted(s: seq<int>)
    requires forall i, j | 0 <= i < j < |s| :: s[i] < s[j]
    ensures SortNumbers(s) == s
  {
    if s != [] {
      SortNumbersOfSorted(s[1..]);
      assert s == [s[0]] + s[1..];
    }
  }

  /** `list(dict.fromkeys(s))`. */
  function Dedup(s: seq<string>): seq<string> {
    if s == [] then [] else
      var before := Dedup(s[..|s| - 1]);
      if s[|s| - 1] in before then before else before + [s[|s| - 1]]
  }

  function NonEmpty(s: seq<string>): seq<string> {
    if s == [] then [] else (if s[0] == "" then [] else [s[0]]) + NonEmpty(s[1..])
  }

  function Numbers(members: seq<PullRequest>): (r: seq<int>)
    ensures |r| == |members| && forall i | 0 <= i < |r| :: r[i] == members[i].number
  {
    seq(|members|, i requires 0 <= i < |members| => members[i].number)
  }

  /** The paths that every member changes. */
  function SharedPaths(members: seq<PullRequest>): set<string> {
    if members == [] then {} else
      set p | p in members[0].PathSet() && forall m | m in members :: p in m.PathSet()
  }

  function AllPaths(members: seq<PullRequest>): set<string> {
    set m, p | m in members && p in m.paths :: p
  }

  function Titles(members: seq<PullRequest>): (r: seq<string>)
    ensures |r| == |members| && forall i | 0 <= i < |r| :: r[i] == members[i].title
  {
    seq(|members|, i requires 0 <= i < |members| => members[i].title)
  }

  function Fingerprints(members: seq<PullRequest>): (r: seq<string>)
    ensures |r| == |members| && forall i | 0 <= i < |r| :: r[i] == members[i].fingerprint
  {
    seq(|members|, i requires 0 <= i < |members| => members[i].fingerprint)
  }

  /** `_build_group` of triage/cluster.py. */
  function BuildGroup(groupId: string, members: seq<PullRequest>): Group {
    Group(groupId, "", SortNumbers(Numbers(members)),
          Dedup(NonEmpty(Fingerprints(members))), SortedStrings(SharedPaths(members)), Dedup(Titles(members)),
          SortedStrings(AllPaths(members)), [], map[])
  }
  /** `r` lists what `s` holds, each once, in the order of first appearance. */
  ghost predicate FirstSeen(s: seq<string>, r: seq<string>) {
    && (forall x :: x in r <==> x in s)
    && forall i, j | 0 <= i < j < |r| :: r[i] != r[j] && exists k :: 0 <= k < |s| && s[k] == r[i] && r[j] !in s[..k]
  }

  lemma {:induction false} DedupIsFirstSeen(s: seq<string>)
    ensures FirstSeen(s, Dedup(s))
  {
    if s != [] {
      var n := |s| - 1;
      var before, after := Dedup(s[..n]), Dedup(s);
      DedupIsFirstSeen(s[..n]);
      assert s == s[..n] + [s[n]];
      forall i, j | 0 <= i < j < |after|
        ensures after[i] != after[j] && exists k :: 0 <= k < |s| && s[k] == after[i] && after[j] !in s[..k]
      {
        if j < |before| {
          var k :| 0 <= k < n && s[..n][k] == before[i] && before[j] !in s[..n][..k];
          assert s[..n][..k] == s[..k];
        } else {
          assert before[i] in before && s[n] !in s[..n];
          var k :| 0 <= k < n && s[..n][k] == before[i];
          assert forall x | x in s[..k] :: x in s[..n];
        }
      }
    }
  }

  lemma {:induction false} NonEmptyHolds(s: seq<string>)
    ensures forall x :: x in NonEmpty(s) <==> x in s && x != ""
  {
    if s != [] { NonEmptyHolds(s[1..]); }
  }

  lemma TitlesAreMembers(members: seq<PullRequest>, t: string)
    ensures t in Titles(members) <==> exists m :: m in members && m.title == t
    ensures t in Fingerprints(members) <==> exists m :: m in members && m.fingerprint == t
  {
    if m :| m in members && m.title == t {
      var i :| 0 <= i < |members| && members[i] == m;
      assert Titles(members)[i] == t;
    }
    if m :| m in members && m.fingerprint == t {
      var i :| 0 <= i < |members| && members[i] == m;
      assert Fingerprints(members)[i] == t;
    }
  }

  lemma PathsAreMembers(members: seq<PullRequest>, path: string)
    ensures path in SharedPaths(members) <==> members != [] && forall m | m in members :: path in m.paths
    ensures path in AllPaths(members) <==> exists m :: m in members && path in m.paths
  {
    if members != [] { assert members[0] in members; }
  }

  /** What a group says about its members: their numbers in order, and which paths, titles and fingerprints it lists. */
  lemma BuiltGroup(groupId: string, members: seq<PullRequest>)
    ensures var g := BuildGroup(groupId, members);
            && g.groupId == groupId && multiset(g.prNumbers) == multiset(Numbers(members))
            && (forall i, j | 0 <= i < j < |g.prNumbers| :: g.prNumbers[i] <= g.prNumbers[j])
            && (forall path :: path in g.sharedFiles <==> members != [] && forall m | m in members :: path in m.paths)
            && (forall path :: path in g.signature <==> exists m :: m in members && path in m.paths)
            && FirstSeen(Titles(members), g.titleVariants) && FirstSeen(NonEmpty(Fingerprints(members)), g.fingerprints)
    ensures forall t :: t in BuildGroup(groupId, members).titleVariants <==> exists m :: m in members && m.title == t
    ensures forall f :: f in BuildGroup(groupId, members).fingerprints <==>
              f != "" && exists m :: m in members && m.fingerprint == f
  {
    hide Titles, Fingerprints, SharedPaths, AllPaths, Dedup, NonEmpty, SortNumbers, SortedStrings, FirstSeen;
    SortNumbersSorts(Numbers(members));
    forall path ensures path in SharedPaths(members) <==> members != [] && forall m | m in members :: path in m.paths
                ensures path in AllPaths(members) <==> exists m :: m in members && path in m.paths
    { PathsAreMembers(members, path); }
    DedupIsFirstSeen(Titles(members));
    DedupIsFirstSeen(NonEmpty(Fingerprints(members)));
    NonEmptyHolds(Fingerprints(members));
    SameStrings(Titles(members), Dedup(Titles(members)));
    SameStrings(NonEmpty(Fingerprints(members)), Dedup(NonEmpty(Fingerprints(members))));
    forall t { TitlesAreMembers(members, t); }
  }

  lemma SameStrings(s: seq<string>, r: seq<string>)
    requires FirstSeen(s, r)
    ensures forall x :: x in r <==> x in s
  {}
}
