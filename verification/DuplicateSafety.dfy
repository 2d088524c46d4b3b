/**
 Duplicates over every run: the validator keys its graph by number alone, so a row of another
 repository can hide a cycle; the lists of keys where that can never happen are exactly those
 of `SafeKeys`.
 */
module DuplicateSafety {
  import opened Models
  import opened Duplicates
  import opened Records
  import opened GroupEvidence
  import opened Stores
  import opened FileReviews
  import opened StoreRuns
  import opened StoreSafety

  // ---- one row each, bound to revisions ----

  /** One row per pull request of a repository. */
  ghost predicate OneRowEach(rows: seq<Disposition>) {
    forall i, j | 0 <= i < j < |rows| :: !(rows[i].repo == rows[j].repo && rows[i].pr == rows[j].pr)
  }

  /**
   What every recorded row says by itself: its own revision, and a duplicate's other pull request
   with its revision.
   */
  predicate BoundAlone(d: Disposition) {
    && d.revision.prNumber == d.pr && (d.kind.Duplicate? <==> d.duplicateOf.Some?)
    && (d.target.Some? <==> d.duplicateOf.Some?)
    && (d.duplicateOf.Some? ==>
          d.duplicateOf.value > 0 && d.duplicateOf.value != d.pr && d.target.value.prNumber == d.duplicateOf.value)
  }

  ghost predicate EachBound(rows: seq<Disposition>) { forall d | d in rows :: BoundAlone(d) }

  ghost predicate SoundRows(rows: seq<Disposition>) { OneRowEach(rows) && EachBound(rows) }

  lemma {:induction false} WithoutRowsMembers(rows: seq<Disposition>, repo: string, numbers: set<int>)
    requires OneRowEach(rows)
    ensures OneRowEach(WithoutRows(rows, repo, numbers))
    ensures forall d :: d in WithoutRows(rows, repo, numbers) <==> d in rows && !(d.repo == repo && d.pr in numbers)
  {
    if rows != [] {
      var n := |rows| - 1;
      WithoutRowsMembers(rows[..n], repo, numbers);
      var rest := WithoutRows(rows[..n], repo, numbers);
      assert rows == rows[..n] + [rows[n]];
      forall i | 0 <= i < |rest|
        ensures !(rest[i].repo == rows[n].repo && rest[i].pr == rows[n].pr)
      {
        assert rest[i] in rows[..n];
        var k :| 0 <= k < n && rows[k] == rest[i];
      }
    }
  }

  lemma AppliedKeepsSound(s: Store, w: Writer, gid: string, rows: seq<Disposition>, id: string)
    requires SoundRows(s.dispositions) && EachBound(rows)
    requires forall i | 0 <= i < |rows| :: rows[i].repo == w.repo
    requires forall i, j | 0 <= i < j < |rows| :: rows[i].pr != rows[j].pr
    ensures SoundRows(Applied(s, w, gid, rows, id).dispositions)
  {
    hide WithoutRows;
    var done := Stamped(rows, id);
    WithoutRowsMembers(s.dispositions, w.repo, RowNumbers(done));
    var kept := WithoutRows(s.dispositions, w.repo, RowNumbers(done));
    forall i, j | 0 <= i < |kept| && 0 <= j < |done|
      ensures !(kept[i].repo == done[j].repo && kept[i].pr == done[j].pr)
    {
      assert kept[i] in kept && done[j] in done;
    }
    forall d | d in done
      ensures BoundAlone(d)
    {
      var i :| 0 <= i < |done| && done[i] == d;
      assert rows[i] in rows;
    }
  }

  lemma AdmittedRows(s: Store, gid: string, w: Writer, items: seq<Item>, reader: Reader)
    requires AcceptItems(s, gid, w, items, reader).Done?
    ensures var rows := AcceptItems(s, gid, w, items, reader).value.rows;
            && (forall i | 0 <= i < |rows| :: rows[i].repo == w.repo)
            && (forall i, j | 0 <= i < j < |rows| :: rows[i].pr != rows[j].pr) && EachBound(rows)
  {
    hide GroupForWrite, Bind, BindFirst;
    var v := GroupForWrite(s, gid, reader).value;
    BoundItems(w, v.group.prNumbers, v.revisions, items, |items|);
  }

  lemma TransitionRowsDistinct(s: Store, p: Proposal, call: TransitionCall, reader: Reader)
    requires TransitionRows(s, p, call, reader).Done?
    ensures var rows := TransitionRows(s, p, call, reader).value.rows;
            && (forall i | 0 <= i < |rows| :: rows[i].repo == s.repo)
            && (forall i, j | 0 <= i < j < |rows| :: rows[i].pr != rows[j].pr) && EachBound(rows)
  {
    hide GroupForWrite, Bind, BindFirst, Digest, AsItems;
    if !call.action.Decline? {
      var v := GroupForWrite(s, p.groupId, reader).value;
      var items := Or(call.items, AsItems(p.items));
      BoundItems(Writer(s.repo, call.actor, "human", call.action.Accept?), v.group.prNumbers, v.revisions, items,
                 |items|);
    }
  }

  lemma StepKeepsSound(s: Store, c: Command)
    requires SoundRows(s.dispositions)
    ensures SoundRows(Step(s, c).dispositions)
  {
    hide Publish, SaveDispositions, DraftProposal, TransitionProposal, Decide, WriteFile, QueueOf, Applied, Upserted,
         Replaced, SoundRows, AcceptItems, TransitionRows, Digest;
    match c
    case DoPublish(p, e) =>
      if Publish(s, p, e).Committed? { PublishFrame(s, p, e); }
    case DoDispositions(call, key, e, reader, id) =>
      if SaveDispositions(s, call, key, e, reader, id).Committed? {
        var gid, a := DispositionsFrame(s, call, key, e, reader, id);
        var w := Writer(s.repo, call.actor, call.source, call.requireComplete);
        AdmittedRows(s, gid, w, call.items, reader);
        AppliedKeepsSound(s, w, a.verified.group.groupId, a.rows, id);
      }
    case DoDraft(call, key, e, reader, id, eventId) =>
      if DraftProposal(s, call, key, e, reader, id, eventId).Committed? {
        DraftFrame(s, call, key, e, reader, id, eventId);
      }
    case DoTransition(call, key, e, reader, eventId, decisionId) =>
      if TransitionProposal(s, call, key, e, reader, eventId, decisionId).Committed? {
        var p, a := TransitionFrame(s, call, key, e, reader, eventId, decisionId);
        TransitionRowsDistinct(s, p, call, reader);
        AppliedKeepsSound(s, Writer(s.repo, call.actor, "human", true), a.verified.group.groupId, a.rows, decisionId);
      }
    case DoDecide(call, key, expected, reader, id) =>
      if Decide(s, call, key, expected, reader, id).Committed? {
        var v := DecideFrame(s, call, key, expected, reader, id);
      }
    case DoFile(r, key, e, manifests, ids) =>
      if WriteFile(s, r, key, e, manifests, ids).Committed? { FileFrame(s, r, key, e, manifests, ids); }
  }

  lemma {:induction false} RunKeepsSound(s: Store, commands: seq<Command>)
    requires SoundRows(s.dispositions)
    ensures SoundRows(Run(s, commands).dispositions)
    decreases |commands|
  {
    hide SoundRows, Step;
    if commands != [] {
      StepKeepsSound(s, commands[0]);
      RunKeepsSound(Step(s, commands[0]), commands[1..]);
    }
  }

  /** The duplicate-of graph of one repository. */
  ghost function RepoEdges(rows: seq<Disposition>, repo: string): Edges
    requires OneRowEach(rows)
  {
    SameRow(rows, repo);
    map d | d in rows && d.repo == repo && PointsOn(d) :: d.pr := d.duplicateOf.value
  }

  lemma SameRow(rows: seq<Disposition>, repo: string)
    requires OneRowEach(rows)
    ensures forall a, b | a in rows && b in rows && a.repo == repo && b.repo == repo && a.pr == b.pr :: a == b
  {
    forall a, b | a in rows && b in rows && a.repo == repo && b.repo == repo && a.pr == b.pr
      ensures a == b
    {
      var i :| 0 <= i < |rows| && rows[i] == a;
      var j :| 0 <= j < |rows| && rows[j] == b;
    }
  }

  /** In the graph of one repository an edge is a row of it that names a duplicate. */
  lemma RepoEdgesAre(rows: seq<Disposition>, repo: string, n: int, m: int)
    requires OneRowEach(rows)
    ensures var g := RepoEdges(rows, repo);
            n in g && g[n] == m <==>
            exists d :: d in rows && d.repo == repo && d.pr == n && d.kind.Duplicate? && d.duplicateOf == Some(m)
  {
    SameRow(rows, repo);
  }

  /** In the graph that the validator checks an edge is the last row of a number, of whatever repository. */
  lemma CheckedEdgesAre(rows: seq<Disposition>, n: int, m: int)
    ensures var g := EdgesFrom(map[], rows);
            n in g && g[n] == m <==>
            exists i :: 0 <= i < |rows| && rows[i].pr == n && rows[i].kind.Duplicate? && rows[i].duplicateOf == Some(m)
                        && forall j | i < j < |rows| :: rows[j].pr != n
  {
    if n in EdgesFrom(map[], rows) { NoEdgeWithout(map[], rows, n); }
    if i :| 0 <= i < |rows| && rows[i].pr == n && rows[i].kind.Duplicate? && rows[i].duplicateOf == Some(m)
            && forall j | i < j < |rows| :: rows[j].pr != n {
      LastRowDecides(map[], rows, i);
    }
  }

  // ---- which key lists the validator can be trusted with ----

  /** What a row is about. */
  datatype RowKey = RowKey(repo: string, pr: int)

  function RowKeys(rows: seq<Disposition>): (keys: seq<RowKey>)
    ensures |keys| == |rows| && forall i | 0 <= i < |rows| :: keys[i] == RowKey(rows[i].repo, rows[i].pr)
  {
    seq(|rows|, i requires 0 <= i < |rows| => RowKey(rows[i].repo, rows[i].pr))
  }

  /** The keys of rows that a store can hold. */
  predicate ProperKeys(keys: seq<RowKey>) {
    && (forall k | k in keys :: k.repo != "" && k.pr > 0)
    && forall i, j | 0 <= i < j < |keys| :: keys[i] != keys[j]
  }

  /** A number of the repository whose key is followed by the same number of another repository. */
  predicate Overridden(keys: seq<RowKey>, repo: string, i: nat) {
    i < |keys| && keys[i].repo == repo && exists j :: i < j < |keys| && keys[j].repo != repo && keys[j].pr == keys[i].pr
  }

  /** No number of the repository is overridden, unless it is the repository's only one. */
  predicate SafeKeys(keys: seq<RowKey>, repo: string) {
    forall i: nat, k: nat | i < |keys| && k < |keys| && keys[k].repo == repo && keys[k].pr != keys[i].pr ::
      !Overridden(keys, repo, i)
  }

  /** Rows that pass every check of a single row and the validator's cycle check. */
  ghost predicate Acceptable(rows: seq<Disposition>) {
    SoundRows(rows) && (forall d | d in rows :: ValidRow(d)) && AcyclicRows(rows)
  }

  ghost predicate NeverCyclic(keys: seq<RowKey>, repo: string) {
    forall rows | RowKeys(rows) == keys && Acceptable(rows) :: Acyclic(RepoEdges(rows, repo))
  }

  /** The last row of a number decides its edge in the graph that the validator checks. */
  lemma {:induction false} LastRowDecides(g: Edges, rows: seq<Disposition>, i: nat)
    requires i < |rows| && forall j | i < j < |rows| :: rows[j].pr != rows[i].pr
    ensures rows[i].pr in EdgesFrom(g, rows) <==> PointsOn(rows[i])
    ensures PointsOn(rows[i]) ==> EdgesFrom(g, rows)[rows[i].pr] == rows[i].duplicateOf.value
  {
    var n := |rows| - 1;
    if i < n { LastRowDecides(g, rows[..n], i); }
  }

  /** Rows that are not overridden keep their edges. */
  lemma KeptEdges(rows: seq<Disposition>, repo: string)
    requires OneRowEach(rows) && AcyclicRows(rows) && forall i: nat | i < |rows| :: !Overridden(RowKeys(rows), repo, i)
    ensures Acyclic(RepoEdges(rows, repo))
  {
    var all, part := EdgesFrom(map[], rows), RepoEdges(rows, repo);
    SameRow(rows, repo);
    forall n | n in part
      ensures n in all && all[n] == part[n]
    {
      var d :| d in rows && d.repo == repo && PointsOn(d) && d.pr == n;
      var i :| 0 <= i < |rows| && rows[i] == d;
      forall j | i < j < |rows|
        ensures rows[j].pr != n
      {
        assert !Overridden(RowKeys(rows), repo, i);
        assert RowKeys(rows)[j] == RowKey(rows[j].repo, rows[j].pr);
      }
      LastRowDecides(map[], rows, i);
    }
    PartIsAcyclic(all, part);
  }

  /** A single edge to somewhere else is no cycle. */
  lemma OneEdgeIsAcyclic(g: Edges, n: int)
    requires forall x | x in g :: x == n && g[x] != n
    ensures Acyclic(g)
  {
    forall x | x in g
      ensures !OnCycle(g, x)
    {
      assert Follow(g, x, 1) == g[x] by { assert Follow(g, x, 0) == x; }
      LeavesIsNotOnCycle(g, x, 1);
    }
  }

  /** With safe keys the validator's check is enough. */
  lemma SafeKeysSuffice(rows: seq<Disposition>, repo: string)
    requires Acceptable(rows) && SafeKeys(RowKeys(rows), repo)
    ensures Acyclic(RepoEdges(rows, repo))
  {
    hide Acyclic, AcyclicRows;
    var keys := RowKeys(rows);
    if i: nat :| i < |rows| && Overridden(keys, repo, i) {
      SameRow(rows, repo);
      forall x | x in RepoEdges(rows, repo)
        ensures x == keys[i].pr && RepoEdges(rows, repo)[x] != x
      {
        var d :| d in rows && d.repo == repo && PointsOn(d) && d.pr == x;
        var k: nat :| k < |rows| && rows[k] == d;
        assert keys[k] == RowKey(repo, x);
      }
      OneEdgeIsAcyclic(RepoEdges(rows, repo), keys[i].pr);
    } else {
      KeptEdges(rows, repo);
    }
  }

  // ---- the keys it cannot be trusted with ----

  function SomeRevision(n: int): RevisionEvidence {
    RevisionEvidence(n, "head", "base", None, None, "digest", true, "github", "")
  }

  function Plain(key: RowKey): Disposition {
    Disposition(key.repo, key.pr, SomeRevision(key.pr), Keep, "fine", None, None, "", "", "")
  }

  function Marked(key: RowKey, other: int): Disposition {
    Disposition(key.repo, key.pr, SomeRevision(key.pr), Duplicate, "same", Some(other), Some(SomeRevision(other)), "",
                "", "")
  }

  /** The repository's rows at i and k duplicate each other, every other row is kept. */
  function EachOther(keys: seq<RowKey>, i: nat, k: nat): (rows: seq<Disposition>)
    requires i < |keys| && k < |keys|
    ensures |rows| == |keys|
    ensures forall x | 0 <= x < |keys| ::
              rows[x] == if x == i then Marked(keys[x], keys[k].pr) else if x == k then Marked(keys[x], keys[i].pr)
                else Plain(keys[x])
  {
    seq(|keys|, x requires 0 <= x < |keys| =>
      if x == i then Marked(keys[x], keys[k].pr) else if x == k then Marked(keys[x], keys[i].pr) else Plain(keys[x]))
  }

  /** A number whose last row points nowhere has no edge in the validator's graph. */
  lemma {:induction false} NoEdgeWithout(g: Edges, rows: seq<Disposition>, n: int)
    requires n in EdgesFrom(g, rows)
    ensures n in g || exists x :: 0 <= x < |rows| && rows[x].pr == n && PointsOn(rows[x]) &&
                        EdgesFrom(g, rows)[n] == rows[x].duplicateOf.value &&
                        forall y | x < y < |rows| :: rows[y].pr != n
  {
    if rows != [] {
      var k := |rows| - 1;
      if rows[k].pr != n {
        NoEdgeWithout(g, rows[..k], n);
        if n !in g {
          var x :| 0 <= x < k && rows[x].pr == n && PointsOn(rows[x]) &&
                   EdgesFrom(g, rows[..k])[n] == rows[x].duplicateOf.value &&
                   forall y | x < y < k :: rows[..k][y].pr != n;
          assert forall y | x < y < |rows| :: rows[y].pr != n;
        }
      } else {
        assert PointsOn(rows[k]);
      }
    }
  }

  lemma EachOtherIsSound(keys: seq<RowKey>, i: nat, k: nat)
    requires ProperKeys(keys) && i < |keys| && k < |keys| && keys[k].pr != keys[i].pr
    ensures var rows := EachOther(keys, i, k);
            RowKeys(rows) == keys && SoundRows(rows) && forall d | d in rows :: ValidRow(d)
  {
    var rows := EachOther(keys, i, k);
    assert RowKeys(rows) == keys;
    forall a, b | 0 <= a < b < |rows|
      ensures !(rows[a].repo == rows[b].repo && rows[a].pr == rows[b].pr)
    {
      assert keys[a] != keys[b];
    }
    forall d | d in rows
      ensures ValidRow(d) && BoundAlone(d)
    {
      var x :| 0 <= x < |rows| && rows[x] == d;
      assert keys[x] in keys && keys[i] in keys && keys[k] in keys;
    }
  }

  /** The overridden row is invisible to the validator, which sees one edge at most. */
  lemma EachOtherIsAcceptable(keys: seq<RowKey>, repo: string, i: nat, k: nat)
    requires ProperKeys(keys) && Overridden(keys, repo, i) && k < |keys| && keys[k].repo == repo
             && keys[k].pr != keys[i].pr
    ensures var rows := EachOther(keys, i, k); RowKeys(rows) == keys && Acceptable(rows)
  {
    hide ProperKeys, SoundRows, ValidRow, Acyclic, EdgesFrom;
    var rows := EachOther(keys, i, k);
    EachOtherIsSound(keys, i, k);
    var g := EdgesFrom(map[], rows);
    var j :| i < j < |keys| && keys[j].repo != repo && keys[j].pr == keys[i].pr;
    forall x | x in g
      ensures x == keys[k].pr && g[x] != x
    {
      NoEdgeWithout(map[], rows, x);
      var y :| 0 <= y < |rows| && rows[y].pr == x && PointsOn(rows[y]) && g[x] == rows[y].duplicateOf.value &&
               forall z | y < z < |rows| :: rows[z].pr != x;
      assert rows[j].pr == keys[i].pr;
    }
    OneEdgeIsAcyclic(g, keys[k].pr);
  }

  lemma EachOtherIsCyclic(keys: seq<RowKey>, repo: string, i: nat, k: nat)
    requires i < |keys| && k < |keys| && keys[i].repo == keys[k].repo == repo && keys[k].pr != keys[i].pr
    requires OneRowEach(EachOther(keys, i, k))
    ensures !Acyclic(RepoEdges(EachOther(keys, i, k), repo))
  {
    var rows := EachOther(keys, i, k);
    var g, m, n := RepoEdges(rows, repo), keys[i].pr, keys[k].pr;
    SameRow(rows, repo);
    assert rows[i] in rows && rows[k] in rows;
    TwoCycle(g, m, n);
  }

  lemma TwoCycle(g: Edges, m: int, n: int)
    requires m in g && n in g && g[m] == n && g[n] == m
    ensures !Acyclic(g)
  {
    assert Follow(g, m, 0) == m;
    assert Follow(g, m, 1) == n;
    assert Follow(g, m, 2) == m;
    assert OnCycle(g, m);
  }

  /** Safe keys are exactly those for which no acceptable rows have a cycle in the repository. */
  lemma SafeKeysExactly(keys: seq<RowKey>, repo: string)
    requires ProperKeys(keys)
    ensures SafeKeys(keys, repo) <==> NeverCyclic(keys, repo)
  {
    hide Acceptable, Acyclic, RepoEdges, Overridden;
    if SafeKeys(keys, repo) {
      forall rows | RowKeys(rows) == keys && Acceptable(rows)
        ensures SoundRows(rows) && Acyclic(RepoEdges(rows, repo))
      {
        AcceptableIsSound(rows);
        SafeKeysSuffice(rows, repo);
      }
    } else {
      var i: nat, k: nat :| i < |keys| && k < |keys| && keys[k].repo == repo && keys[k].pr != keys[i].pr
        && Overridden(keys, repo, i);
      EachOtherIsAcceptable(keys, repo, i, k);
      AcceptableIsSound(EachOther(keys, i, k));
      OverriddenIsOwn(keys, repo, i);
      EachOtherIsCyclic(keys, repo, i, k);
    }
  }

  lemma OverriddenIsOwn(keys: seq<RowKey>, repo: string, i: nat)
    requires Overridden(keys, repo, i)
    ensures i < |keys| && keys[i].repo == repo
  {}

  lemma AcceptableIsSound(rows: seq<Disposition>)
    requires Acceptable(rows)
    ensures SoundRows(rows)
  {}

  /** A repository whose numbers no other repository has is safe. */
  lemma OwnNumbersAreSafe(keys: seq<RowKey>, repo: string)
    requires forall a, b | a in keys && b in keys && a.repo == repo && a.pr == b.pr :: b.repo == repo
    ensures SafeKeys(keys, repo)
  {
    forall i: nat | i < |keys|
      ensures !Overridden(keys, repo, i)
    {
      assert keys[i] in keys;
    }
  }

  // ---- every reachable store ----

  lemma {:induction false} DistinctRowsFit(rows: seq<Disposition>, numbers: set<int>)
    requires numbers <= RowNumbers(rows)
    ensures |numbers| <= |rows|
  {
    if rows == [] {
      assert RowNumbers(rows) == {};
    } else {
      var k := |rows| - 1;
      assert rows == rows[..k] + [rows[k]];
      assert RowNumbers(rows) == RowNumbers(rows[..k]) + {rows[k].pr};
      DistinctRowsFit(rows[..k], numbers - {rows[k].pr});
    }
  }

  lemma EmptyIsValid()
    ensures ValidStore(EMPTY_STORE) && SoundRows(EMPTY_STORE.dispositions)
  {}

  /** Every store reached from the empty one holds acceptable rows. */
  lemma ReachableRowsAreAcceptable(commands: seq<Command>)
    ensures Acceptable(Run(EMPTY_STORE, commands).dispositions)
  {
    hide Run, SoundRows;
    EmptyIsValid();
    RunExtends(EMPTY_STORE, commands);
    assert SoundRows(EMPTY_STORE.dispositions) by { EmptyIsValid(); }
    RunKeepsSound(EMPTY_STORE, commands);
  }

  /** An acyclic repository is left behind within as many steps of `duplicate_of` as there are rows. */
  lemma ChainsEnd(rows: seq<Disposition>, repo: string, x: int)
    requires OneRowEach(rows) && Acyclic(RepoEdges(rows, repo))
    ensures Follow(RepoEdges(rows, repo), x, |rows|) !in RepoEdges(rows, repo)
  {
    var part := RepoEdges(rows, repo);
    AcyclicChainEnds(part, x);
    DistinctRowsFit(rows, part.Keys);
    if Follow(part, x, |rows|) in part { StaysOutLater(part, x, |part|, |rows|); }
  }

  /**
   No store reached from the empty one has a duplicate cycle in a repository whose keys are
   safe, whatever regroupings hid from the check inside one group; `duplicate_of` ends within
   as many steps as there are rows.
   */
  lemma NoDuplicateCycle(commands: seq<Command>, repo: string, x: int)
    requires SafeKeys(RowKeys(Run(EMPTY_STORE, commands).dispositions), repo)
    ensures var rows := Run(EMPTY_STORE, commands).dispositions;
            && OneRowEach(rows) && Acyclic(RepoEdges(rows, repo))
            && Follow(RepoEdges(rows, repo), x, |rows|) !in RepoEdges(rows, repo)
  {
    hide Run, SafeKeys, RepoEdges, Acyclic;
    var rows := Run(EMPTY_STORE, commands).dispositions;
    ReachableRowsAreAcceptable(commands);
    AcceptableIsSound(rows);
    SafeKeysSuffice(rows, repo);
    ChainsEnd(rows, repo, x);
  }
}
