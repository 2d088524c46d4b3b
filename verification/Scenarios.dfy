/**
 Three runs from the empty store where the code does less than its words: a cycle of duplicates
 that is committed, a keyed draft whose retry returns something else, and a decision without effect.
 */
module Scenarios {
  import opened Models
  import opened Duplicates
  import opened Records
  import opened GroupEvidence
  import opened Queues
  import opened Stores
  import opened StoreRuns
  import opened StoreRetries
  import opened DuplicateSafety
  import opened Decisions

  /** Reading the pinned evidence gives what was recorded. */
  function Faithful(row: PrRow): Reading { if row.recorded.evidenceComplete then Read(row.recorded) else Unavailable }

  function RevisionAt(n: int, head: string): RevisionEvidence {
    RevisionEvidence(n, head, "base", None, None, "digest", true, "github", "")
  }

  const ANY := Expect(None, None)

  // ---- one published group ----

  /** The pull requests 1 and, in the repository that has it, 2. */
  function Evidence(head: string, numbers: seq<int>): map<int, RevisionEvidence> {
    map n | n in numbers :: n := RevisionAt(n, if n == 1 then head else "head")
  }

  function BoundGroup(repo: string, head: string, numbers: seq<int>): StoreGroup {
    BindRevisions(StoreGroup("g", repo, numbers, [], [], false), Evidence(head, numbers))
  }

  /** A row of provider evidence, of whatever repository is active. */
  function RowWith(n: int, evidence: RevisionEvidence): PrRow { PrRow(n, evidence, None, "github", false, true) }

  function RowsAt(head: string, numbers: seq<int>): seq<PrRow>
    requires forall n | n in numbers :: n in Evidence(head, numbers)
  {
    seq(|numbers|, i requires 0 <= i < |numbers| => RowWith(numbers[i], Evidence(head, numbers)[numbers[i]]))
  }

  predicate Small(numbers: seq<int>) { numbers == [1] || numbers == [1, 2] }

  /** A store with one published group, its rows and these dispositions. */
  ghost predicate At(s: Store, repo: string, head: string, numbers: seq<int>, rows: seq<Disposition>, version: nat) {
    && ValidStore(s) && s.repo == repo != "" && s.source == "github" && s.dispositions == rows
    && s.snapshotVersion <= s.version == version < 100
    && Small(numbers) && s.prs == RowsAt(head, numbers) && GroupsIn(s, repo) == [BoundGroup(repo, head, numbers)]
  }

  function Publishing(repo: string, head: string, numbers: seq<int>): Command
    requires Small(numbers)
  {
    DoPublish(Publication([BoundGroup(repo, head, numbers)], Some(RowsAt(head, numbers)), Some("github"), Some(repo),
                          None), ANY)
  }

  lemma PublishLeadsTo(s: Store, repo: string, head: string, numbers: seq<int>)
    requires ValidStore(s) && s.snapshotVersion <= s.version < 99 && Small(numbers) && repo != ""
    ensures At(Step(s, Publishing(repo, head, numbers)), repo, head, numbers, s.dispositions, s.version + 1)
    ensures var t := Step(s, Publishing(repo, head, numbers));
            t.proposals == s.proposals && t.proposalKeys == s.proposalKeys && t.snapshotVersion == s.snapshotVersion + 1
  {
    hide BoundGroup, RowsAt, ValidStore;
    GroupKeepsNames(repo, head, numbers);
    var p := Publishing(repo, head, numbers).publication;
    assert OfRepo(p.groups, repo) == p.groups;
    PublishedIsValid(s, p);
  }

  lemma PublishedIsValid(s: Store, p: Publication)
    requires ValidStore(s) && s.version < 99 && s.snapshotVersion < 99 && forall g | g in p.groups :: g.groupId != ""
    ensures ValidStore(Published(s, p).(version := s.version + 1))
  {
    hide AcyclicRows;
  }

  lemma GroupKeepsNames(repo: string, head: string, numbers: seq<int>)
    ensures var g := BoundGroup(repo, head, numbers); g.groupId == "g" && g.repo == repo && g.prNumbers == numbers
  {}

  /** The members of the group as it is bound. */
  function RevisionsAt(head: string, numbers: seq<int>): seq<RevisionEvidence> {
    if numbers == [1] then [RevisionAt(1, head)] else [RevisionAt(1, head), RevisionAt(2, "head")]
  }

  lemma BoundRevisionsAre(repo: string, head: string, numbers: seq<int>)
    requires Small(numbers)
    ensures var g := BoundGroup(repo, head, numbers);
            g.memberRevisions == RevisionsAt(head, numbers) && g.evidenceComplete
  {
    hide Digest;
    SortNumbersOfSorted(numbers);
    if numbers == [1, 2] {
      assert numbers[1..] == [2] && numbers[1..][1..] == [];
      assert Decisions.Revisions(Evidence(head, numbers), numbers[1..]) == [RevisionAt(2, "head")];
    } else {
      assert numbers[1..] == [];
    }
  }

  lemma RowsAreHeld(s: Store, repo: string, head: string, numbers: seq<int>, rows: seq<Disposition>, version: nat)
    requires At(s, repo, head, numbers, rows, version)
    ensures RowsHold(s, numbers, Evidence(head, numbers))
    ensures forall i, j | 0 <= i < j < |s.prs| :: s.prs[i].number != s.prs[j].number
  {
    hide ValidStore, BindRevisions;
    var prs, evidence := s.prs, Evidence(head, numbers);
    if numbers == [1, 2] {
      assert prs == [RowWith(1, evidence[1]), RowWith(2, evidence[2])];
      assert prs[1..] == [prs[1]] && prs[1..][1..] == [];
      assert RowsOf(prs[1..][1..], 1) == [] && RowsOf(prs[1..][1..], 2) == [];
      assert RowsOf(prs[1..], 1) == [] && RowsOf(prs[1..], 2) == [prs[1]];
    } else {
      assert prs == [RowWith(1, evidence[1])];
      assert RowsOf(prs, 1) == prs;
    }
  }

  /** The published group passes verification with complete evidence. */
  lemma GroupVerifies(s: Store, repo: string, head: string, numbers: seq<int>, rows: seq<Disposition>, version: nat)
    requires At(s, repo, head, numbers, rows, version)
    ensures GroupForWrite(s, "g", Faithful) ==
              Done(Verified(BoundGroup(repo, head, numbers), RevisionsAt(head, numbers), true))
  {
    hide ValidStore, BindRevisions, VerifyGroup, RowsHold;
    var g := StoreGroup("g", repo, numbers, [], [], false);
    GroupKeepsNames(repo, head, numbers);
    BoundRevisionsAre(repo, head, numbers);
    RowsAreHeld(s, repo, head, numbers, rows, version);
    assert MatchingGroups(GroupsIn(s, repo), "g") == [BoundGroup(repo, head, numbers)];
    BoundGroupVerifies(s, "g", g, Evidence(head, numbers), Faithful);
  }

  // ---- one committed judgement ----

  function ItemOf(n: int, duplicateOf: Option<int>): Item {
    Item(n, if duplicateOf.Some? then Duplicate else Keep, "reason", None, duplicateOf, None)
  }

  function RowBy(w: Writer, head: string, numbers: seq<int>, n: int, duplicateOf: Option<int>): Disposition
    requires Small(numbers) && n in numbers && (duplicateOf.Some? ==> duplicateOf.value in numbers)
  {
    Disposition(w.repo, n, Evidence(head, numbers)[n], if duplicateOf.Some? then Duplicate else Keep, "reason",
                duplicateOf, if duplicateOf.Some? then Some(Evidence(head, numbers)[duplicateOf.value]) else None,
                w.actor, "", w.source)
  }

  function Human(repo: string): Writer { Writer(repo, "someone", "human", true) }

  function RowOf(repo: string, head: string, numbers: seq<int>, n: int, duplicateOf: Option<int>): Disposition
    requires Small(numbers) && n in numbers && (duplicateOf.Some? ==> duplicateOf.value in numbers)
  {
    RowBy(Human(repo), head, numbers, n, duplicateOf)
  }

  function Marking(n: int, duplicateOf: Option<int>): Command {
    DoDispositions(DispositionCall(None, "g", [ItemOf(n, duplicateOf)], "someone", "human", true), "", ANY, Faithful,
                   "event")
  }

  lemma RevisionFound(head: string, numbers: seq<int>, n: int)
    requires Small(numbers) && n in numbers
    ensures RevisionOf(RevisionsAt(head, numbers), n) == Some(Evidence(head, numbers)[n])
  {
    var revisions := RevisionsAt(head, numbers);
    if numbers == [1, 2] { assert revisions[..1] == [RevisionAt(1, head)]; }
  }

  lemma ItemIsBound(w: Writer, head: string, numbers: seq<int>, n: int, duplicateOf: Option<int>)
    requires Small(numbers) && n in numbers
             && (duplicateOf.Some? ==> duplicateOf.value in numbers && duplicateOf.value != n)
    ensures BindItems(w, numbers, RevisionsAt(head, numbers), [ItemOf(n, duplicateOf)]) ==
            Done([RowBy(w, head, numbers, n, duplicateOf)])
  {
    hide RevisionOf;
    RevisionFound(head, numbers, n);
    if duplicateOf.Some? { RevisionFound(head, numbers, duplicateOf.value); }
    var items, revisions, row := [ItemOf(n, duplicateOf)], RevisionsAt(head, numbers),
      RowBy(w, head, numbers, n, duplicateOf);
    assert items[..0] == [] && ItemNumbers([]) == {};
    assert Bind(w, numbers, revisions, items[0], {}) == Done(row);
    assert BindFirst(w, numbers, revisions, items, 0) == Done([]);
    assert [] + [row] == [row] && items[1 - 1] == items[0] && items[..1 - 1] == [];
    assert BindFirst(w, numbers, revisions, items, 1) == Done([row]);
  }

  lemma QueueIsNotValidated(s: Store, queue: Piles)
    requires ValidStore(s)
    ensures ValidStore(s.(queue := queue))
  {}

  lemma SavingCommits(s: Store, call: DispositionCall, reader: Reader, id: string, a: Admitted)
    requires s.repo != "" && s.version < MAX_SAFE_INTEGER && call.repo.None? && call.groupId != ""
    requires AcceptItems(s, call.groupId, Writer(s.repo, call.actor, call.source, call.requireComplete), call.items,
                         reader) == Done(a)
    requires LocallyAcyclic(s, s.repo, a.verified.revisions, a.rows)
    requires var w := Writer(s.repo, call.actor, call.source, call.requireComplete);
             ValidStore(Applied(s, w, a.verified.group.groupId, a.rows, id).(version := s.version + 1))
    ensures var w := Writer(s.repo, call.actor, call.source, call.requireComplete);
            var o := SaveDispositions(s, call, "", ANY, reader, id);
            var applied := Applied(s, w, a.verified.group.groupId, a.rows, id);
            && o.Committed? && o.store == applied.(version := s.version + 1, queue := QueueOf(applied))
            && ValidStore(o.store)
  {
    hide ValidStore, AcceptItems, LocallyAcyclic, QueueOf, Stamped, WithoutRows, RowNumbers;
    var w := Writer(s.repo, call.actor, call.source, call.requireComplete);
    AppliedFrame(s, w, a.verified.group.groupId, a.rows, id);
    var applied := Applied(s, w, a.verified.group.groupId, a.rows, id);
    QueueIsNotValidated(applied.(version := s.version + 1), QueueOf(applied));
    assert Refreshed(applied).(version := s.version + 1) ==
             applied.(version := s.version + 1, queue := QueueOf(applied));
  }

  function After(rows: seq<Disposition>, row: Disposition): seq<Disposition> {
    WithoutRows(rows, row.repo, {row.pr}) + [row.(eventId := "event")]
  }

  lemma AppliedIsValid(s: Store, w: Writer, row: Disposition)
    requires ValidStore(s) && s.version < 99 && row.repo == w.repo && ValidRow(row)
             && AcyclicRows(After(s.dispositions, row))
    ensures var t := Applied(s, w, "g", [row], "event").(version := s.version + 1);
            ValidStore(t) && t.dispositions == After(s.dispositions, row)
  {
    hide WithoutRows, AcyclicRows;
    assert Stamped([row], "event") == [row.(eventId := "event")];
    assert RowNumbers([row.(eventId := "event")]) == {row.pr};
    WithoutRowsElements(s.dispositions, w.repo, {row.pr});
  }

  /** One judgement on the published group is committed when neither check sees a cycle. */
  lemma MarkLeadsTo(s: Store, repo: string, head: string, numbers: seq<int>, rows: seq<Disposition>, version: nat,
                    n: int, duplicateOf: Option<int>)
    requires At(s, repo, head, numbers, rows, version) && version < 99
    requires n in numbers && (duplicateOf.Some? ==> duplicateOf.value in numbers && duplicateOf.value != n)
    requires LocallyAcyclic(s, repo, RevisionsAt(head, numbers), [RowOf(repo, head, numbers, n, duplicateOf)])
    requires AcyclicRows(After(rows, RowOf(repo, head, numbers, n, duplicateOf)))
    ensures At(Step(s, Marking(n, duplicateOf)), repo, head, numbers,
               After(rows, RowOf(repo, head, numbers, n, duplicateOf)), version + 1)
  {
    hide GroupForWrite, BindItems, LocallyAcyclic, AcyclicRows, QueueOf, After, BoundGroup, RowsAt, ValidStore,
         SaveDispositions;
    GroupVerifies(s, repo, head, numbers, rows, version);
    GroupKeepsNames(repo, head, numbers);
    ItemIsBound(Human(repo), head, numbers, n, duplicateOf);
    var row, w := RowOf(repo, head, numbers, n, duplicateOf), Human(repo);
    AppliedIsValid(s, w, row);
    var call := Marking(n, duplicateOf).dispositions;
    var v := Verified(BoundGroup(repo, head, numbers), RevisionsAt(head, numbers), true);
    SavingCommits(s, call, Faithful, "event", Admitted(v, [row]));
    AppliedFrame(s, w, "g", [row], "event");
  }
  // ---- the committed cycle ----

  lemma {:induction false} RunAppend(s: Store, commands: seq<Command>, c: Command)
    ensures Run(s, commands + [c]) == Step(Run(s, commands), c)
    decreases |commands|
  {
    hide Step;
    if commands == [] {
      assert commands + [c] == [c];
      assert Run(Step(s, c), []) == Step(s, c);
    } else {
      assert (commands + [c])[1..] == commands[1..] + [c];
      RunAppend(Step(s, commands[0]), commands[1..], c);
    }
  }

  /** 1 of repository a duplicates 2; 1 of repository b is kept; 1 of a gets a new head; 2 of a duplicates 1. */
  function HidingRun(): seq<Command> {
    [Publishing("a", "first", [1, 2])] + [Marking(1, Some(2))] + [Publishing("b", "other", [1])] + [Marking(1, None)]
    + [Publishing("a", "second", [1, 2])] + [Marking(2, Some(1))]
  }

  function FirstRow(): Disposition { RowOf("a", "first", [1, 2], 1, Some(2)).(eventId := "event") }
  function OtherRow(): Disposition { RowOf("b", "other", [1], 1, None).(eventId := "event") }
  function LastRow(): Disposition { RowOf("a", "second", [1, 2], 2, Some(1)).(eventId := "event") }

  lemma NamesDiffer()
    ensures "a" != "b" && "first" != "second"
  {
    assert "a"[0] != "b"[0] && "first"[0] != "second"[0];
  }

  lemma OneEdge(g: Edges, rows: seq<Disposition>, d: Disposition)
    requires rows == [d]
    ensures EdgesFrom(g, rows) == if PointsOn(d) then g[d.pr := d.duplicateOf.value] else g - {d.pr}
  {
    assert rows[..0] == [];
  }

  lemma FirstMark(s: Store)
    requires At(s, "a", "first", [1, 2], [], 1)
    ensures At(Step(s, Marking(1, Some(2))), "a", "first", [1, 2], [FirstRow()], 2)
  {
    hide At, Acyclic, Step;
    var row := RowOf("a", "first", [1, 2], 1, Some(2));
    assert s.dispositions == [] by { AtRows(s, "a", "first", [1, 2], [], 1); }
    OneEdge(map[], [row], row);
    OneEdge(map[], [FirstRow()], FirstRow());
    OneEdgeIsAcyclic(map[1 := 2], 1);
    assert After([], row) == [FirstRow()];
    MarkLeadsTo(s, "a", "first", [1, 2], [], 1, 1, Some(2));
  }

  lemma AtRows(s: Store, repo: string, head: string, numbers: seq<int>, rows: seq<Disposition>, version: nat)
    requires At(s, repo, head, numbers, rows, version)
    ensures ValidStore(s) && s.repo == repo && s.dispositions == rows && s.snapshotVersion <= s.version == version
  {
    hide ValidStore;
  }

  /** The row of repository b removes the edge of number 1. */
  lemma OtherRowHides()
    ensures EdgesFrom(map[], [FirstRow(), OtherRow()]) == map[]
  {
    var rows := [FirstRow(), OtherRow()];
    OneEdge(map[], [FirstRow()], FirstRow());
    assert rows[..1] == [FirstRow()];
  }

  lemma OtherIsAlone()
    ensures CurrentRows([FirstRow()], "b", RevisionsAt("other", [1])) == map[]
    ensures After([FirstRow()], RowOf("b", "other", [1], 1, None)) == [FirstRow(), OtherRow()]
  {
    hide RevisionOf, SameRevision;
    NamesDiffer();
    assert [FirstRow()][..0] == [];
    assert WithoutRows([FirstRow()], "b", {1}) == [FirstRow()];
  }

  lemma OtherMark(s: Store)
    requires At(s, "b", "other", [1], [FirstRow()], 3)
    ensures At(Step(s, Marking(1, None)), "b", "other", [1], [FirstRow(), OtherRow()], 4)
  {
    hide At, Acyclic, Step, CurrentRows, After, RevisionsAt;
    var row := RowOf("b", "other", [1], 1, None);
    AtRows(s, "b", "other", [1], [FirstRow()], 3);
    OtherIsAlone();
    OtherRowHides();
    OneEdge(map[], [row], row);
    NothingIsAcyclic();
    MarkLeadsTo(s, "b", "other", [1], [FirstRow()], 3, 1, None);
  }

  lemma NothingIsAcyclic()
    ensures Acyclic(map[])
  {}

  lemma LastMark(s: Store)
    requires At(s, "a", "second", [1, 2], [FirstRow(), OtherRow()], 5)
    ensures At(Step(s, Marking(2, Some(1))), "a", "second", [1, 2], [FirstRow(), OtherRow(), LastRow()], 6)
  {
    hide At, Acyclic, Step;
    NamesDiffer();
    var row, rows := RowOf("a", "second", [1, 2], 2, Some(1)), [FirstRow(), OtherRow()];
    AtRows(s, "a", "second", [1, 2], rows, 5);
    NothingCurrent();
    OneEdge(map[], [row], row);
    OtherRowHides();
    assert [FirstRow(), OtherRow(), LastRow()][..2] == rows;
    assert EdgesFrom(map[], [FirstRow(), OtherRow(), LastRow()]) == map[2 := 1];
    OneEdgeIsAcyclic(map[2 := 1], 2);
    assert [FirstRow()][..0] == [];
    assert WithoutRows([FirstRow()], "a", {2}) == [FirstRow()];
    assert WithoutRows(rows, "a", {2}) == rows;
    assert After(rows, row) == [FirstRow(), OtherRow(), LastRow()];
    MarkLeadsTo(s, "a", "second", [1, 2], rows, 5, 2, Some(1));
  }

  /** The first row is about the old head of 1, so the check inside the group does not see it. */
  lemma NothingCurrent()
    ensures CurrentRows([FirstRow(), OtherRow()], "a", RevisionsAt("second", [1, 2])) == map[]
  {
    NamesDiffer();
    var rows, revisions := [FirstRow(), OtherRow()], RevisionsAt("second", [1, 2]);
    RevisionFound("second", [1, 2], 1);
    assert rows[..1] == [FirstRow()] && [FirstRow()][..0] == [];
    assert CurrentRows([FirstRow()], "a", revisions) == map[];
  }

  /** A run from the empty store that commits a cycle of duplicates. */
  lemma SharedNumbersHideCycle()
    ensures var rows := Run(EMPTY_STORE, HidingRun()).dispositions;
            && rows == [FirstRow(), OtherRow(), LastRow()] && Acceptable(rows) && !SafeKeys(RowKeys(rows), "a")
            && RepoEdges(rows, "a") == map[1 := 2, 2 := 1] && !Acyclic(RepoEdges(rows, "a"))
  {
    hide Run, At, SafeKeys, Acyclic, HidingRun;
    HidingRunLeadsTo();
    ReachableRowsAreAcceptable(HidingRun());
    CycleOfRows();
  }

  lemma RowFacts()
    ensures RowKeys([FirstRow(), OtherRow(), LastRow()]) == [RowKey("a", 1), RowKey("b", 1), RowKey("a", 2)]
    ensures PointsOn(FirstRow()) && FirstRow().duplicateOf == Some(2) && !PointsOn(OtherRow())
    ensures PointsOn(LastRow()) && LastRow().duplicateOf == Some(1)
  {}

  lemma CycleOfRows()
    requires OneRowEach([FirstRow(), OtherRow(), LastRow()])
    ensures var rows := [FirstRow(), OtherRow(), LastRow()];
            && RepoEdges(rows, "a") == map[1 := 2, 2 := 1] && !Acyclic(RepoEdges(rows, "a"))
            && !SafeKeys(RowKeys(rows), "a")
  {
    hide Acyclic, FirstRow, OtherRow, LastRow, OneRowEach, PointsOn;
    NamesDiffer();
    RowFacts();
    var rows := [FirstRow(), OtherRow(), LastRow()];
    var keys := RowKeys(rows);
    assert keys[0] == RowKey(rows[0].repo, rows[0].pr) && keys[1] == RowKey(rows[1].repo, rows[1].pr);
    assert keys[2] == RowKey(rows[2].repo, rows[2].pr);
    assert rows[0] in rows && rows[1] in rows && rows[2] in rows;
    assert forall d | d in rows :: d == rows[0] || d == rows[1] || d == rows[2];
    TwoCycle(RepoEdges(rows, "a"), 1, 2);
    assert Overridden(keys, "a", 0);
  }

  lemma HidingRunLeadsTo()
    ensures Run(EMPTY_STORE, HidingRun()).dispositions == [FirstRow(), OtherRow(), LastRow()]
  {
    hide At, Step, Run, Publishing, Marking, ValidStore, FirstRow, OtherRow, LastRow;
    EmptyIsValid();
    var c1, c2, c3 := Publishing("a", "first", [1, 2]), Marking(1, Some(2)), Publishing("b", "other", [1]);
    var c4, c5, c6 := Marking(1, None), Publishing("a", "second", [1, 2]), Marking(2, Some(1));
    var s0 := EMPTY_STORE;
    SixSteps(s0, c1, c2, c3, c4, c5, c6);
    PublishLeadsTo(s0, "a", "first", [1, 2]);
    var s1 := Step(s0, c1);
    FirstMark(s1);
    var s2 := Step(s1, c2);
    AtRows(s2, "a", "first", [1, 2], [FirstRow()], 2);
    PublishLeadsTo(s2, "b", "other", [1]);
    var s3 := Step(s2, c3);
    OtherMark(s3);
    var s4 := Step(s3, c4);
    AtRows(s4, "b", "other", [1], [FirstRow(), OtherRow()], 4);
    PublishLeadsTo(s4, "a", "second", [1, 2]);
    var s5 := Step(s4, c5);
    LastMark(s5);
    AtRows(Step(s5, c6), "a", "second", [1, 2], [FirstRow(), OtherRow(), LastRow()], 6);
  }

  lemma SixSteps(s: Store, c1: Command, c2: Command, c3: Command, c4: Command, c5: Command, c6: Command)
    ensures Run(s, [c1] + [c2] + [c3] + [c4] + [c5] + [c6]) ==
              Step(Step(Step(Step(Step(Step(s, c1), c2), c3), c4), c5), c6)
  {
    hide Step, Run;
    OneCommand(s, c1);
    RunAppend(s, [c1], c2);
    RunAppend(s, [c1] + [c2], c3);
    RunAppend(s, [c1] + [c2] + [c3], c4);
    RunAppend(s, [c1] + [c2] + [c3] + [c4], c5);
    RunAppend(s, [c1] + [c2] + [c3] + [c4] + [c5], c6);
  }
  // ---- the draft that comes back declined ----

  const DRAFTING := DraftCall("a", "g", [ItemOf(1, None)], None, "agent")
  const DECLINING := TransitionCall("p", Decline, "a", None, None, "no", "someone")

  function Declining(): Command { DoTransition(DECLINING, "", ANY, Faithful, "second event", "unused") }

  function DraftedRow(): Disposition { RowBy(Writer("a", "agent", "agent", false), "first", [1, 2], 1, None) }

  function DraftedProposal(): Proposal {
    Proposal("p", Draft, "a", "g", None, [DraftedRow()], Digest(RevisionsAt("first", [1, 2])), [1, 2], "agent", "", "")
  }

  lemma DraftedRowsAreAcyclic()
    ensures AcyclicRows([DraftedRow()])
  {
    OneEdge(map[], [DraftedRow()], DraftedRow());
    NothingIsAcyclic();
  }

  /** The keyed draft is committed in the store with the one published group. */
  lemma DraftingCommits(s: Store)
    requires At(s, "a", "first", [1, 2], [], 1) && s.proposals == [] && s.proposalKeys == map[]
    ensures var o := DraftProposal(s, DRAFTING, "k", ANY, Faithful, "p", "first event");
            && o.Committed? && o.value == DraftedProposal() && o.store.proposals == [DraftedProposal()]
            && At(o.store, "a", "first", [1, 2], [], 2)
  {
    hide GroupForWrite, BindItems, AcyclicRows, BoundGroup, RowsAt, Digest;
    GroupVerifies(s, "a", "first", [1, 2], [], 1);
    GroupKeepsNames("a", "first", [1, 2]);
    ItemIsBound(Writer("a", "agent", "agent", false), "first", [1, 2], 1, None);
    DraftedRowsAreAcyclic();
  }

  function DeclineAdmitted(): Admitted {
    Admitted(Verified(BoundGroup("a", "first", [1, 2]), RevisionsAt("first", [1, 2]), true), [])
  }

  lemma DeclineIsAdmitted(s: Store)
    requires At(s, "a", "first", [1, 2], [], 2) && s.proposals == [DraftedProposal()]
    ensures FindProposal(s, "p") == Some(DraftedProposal())
    ensures TransitionRows(s, DraftedProposal(), DECLINING, Faithful) == Done(DeclineAdmitted())
  {
    hide GroupForWrite, ValidStore, BoundGroup, RowsAt, Digest;
    GroupVerifies(s, "a", "first", [1, 2], [], 2);
    GroupKeepsNames("a", "first", [1, 2]);
    assert ProposalsWith(s.proposals[1..], "p") == [];
  }

  lemma DeclinedIsValid(s: Store)
    requires ValidStore(s) && s.repo == "a" && s.version == 2 && s.proposals == [DraftedProposal()]
    ensures var (changed, updated) :=
              Transitioned(s, DraftedProposal(), DECLINING, DeclineAdmitted(), "", "second event", "unused");
            && changed.proposals == [updated] && updated.status.Declined? && changed.repo == "a"
            && ValidStore(changed.(version := 3))
  {
    hide AcyclicRows, BoundGroup, Digest, DraftedRow;
    DraftedRowsAreAcyclic();
    var (changed, updated) :=
      Transitioned(s, DraftedProposal(), DECLINING, DeclineAdmitted(), "", "second event", "unused");
    assert changed.proposals == [updated] && updated.items == [DraftedRow()];
  }

  /** A decline of it is committed. */
  lemma DecliningCommits(s: Store)
    requires At(s, "a", "first", [1, 2], [], 2) && s.proposals == [DraftedProposal()]
    ensures var t := Step(s, Declining());
            t.repo == "a" && |t.proposals| == 1 && t.proposals[0].status.Declined?
  {
    hide At, ValidStore, DraftedRow, Digest, QueueOf, FindProposal, TransitionRows, Transitioned, DeclineAdmitted;
    AtRows(s, "a", "first", [1, 2], [], 2);
    DeclineIsAdmitted(s);
    DeclinedIsValid(s);
    var changed := Transitioned(s, DraftedProposal(), DECLINING, DeclineAdmitted(), "", "second event", "unused").0;
    QueueIsNotValidated(changed.(version := 3), QueueOf(changed));
    assert Refreshed(changed).(version := 3) == changed.(version := 3).(queue := QueueOf(changed));
  }

  /** A run in which the retried draft returns a declined proposal, not the draft it recorded. */
  lemma RetriedDraftComesBackDeclined()
    ensures var s := Run(EMPTY_STORE, [Publishing("a", "first", [1, 2])]);
            var o := DraftProposal(s, DRAFTING, "k", ANY, Faithful, "p", "first event");
            && o.Committed? && o.value.status.Draft?
            && var again := DraftProposal(Run(o.store, [Declining()]), DRAFTING, "k", ANY, Faithful, "q",
                                          "third event");
               again.Unchanged? && again.value.status.Declined? && again != Unchanged(o.value)
  {
    hide At, Step, Run, Publishing, DraftProposal, Digest;
    EmptyIsValid();
    OneCommand(EMPTY_STORE, Publishing("a", "first", [1, 2]));
    PublishLeadsTo(EMPTY_STORE, "a", "first", [1, 2]);
    var s := Step(EMPTY_STORE, Publishing("a", "first", [1, 2]));
    DraftingCommits(s);
    var o := DraftProposal(s, DRAFTING, "k", ANY, Faithful, "p", "first event");
    DecliningCommits(o.store);
    OneCommand(o.store, Declining());
    AtRows(s, "a", "first", [1, 2], [], 1);
    DraftRetryReturnsDraft(s, DRAFTING, "k", ANY, Faithful, "p", "first event", [Declining()], ANY, Faithful, "q",
                           "third event");
  }

  lemma OneCommand(s: Store, c: Command)
    ensures Run(s, [c]) == Step(s, c)
    ensures FreshIds(s, c) ==> FreshRun(s, [c])
  {
    assert Run(Step(s, c), [c][1..]) == Step(s, c);
  }
  // ---- the decision without effect ----

  function LaterEvidence(): RevisionEvidence { RevisionAt(1, "first").(cacheSnapshotId := "later") }

  /** The group names no evidence snapshot, the row of its member records one. */
  function Unpinned(): Command {
    DoPublish(Publication([BoundGroup("a", "first", [1])], Some([RowWith(1, LaterEvidence())]), Some("github"),
                          Some("a"), None), ANY)
  }

  const DECIDING := DecideCall("g", Rejected, None, "someone")

  lemma UnpinnedLeadsTo()
    ensures var s := Step(EMPTY_STORE, Unpinned());
            && ValidStore(s) && s.repo == "a" && s.source == "github" && s.prs == [RowWith(1, LaterEvidence())]
            && GroupsIn(s, "a") == [BoundGroup("a", "first", [1])] && s.version == 1 && s.dispositions == []
            && s.decisionEvents == [] && s.decisionKeys == map[]
  {
    hide ValidStore, BoundGroup;
    EmptyIsValid();
    GroupKeepsNames("a", "first", [1]);
    var p := Unpinned().publication;
    assert OfRepo(p.groups, "a") == p.groups;
    PublishedIsValid(EMPTY_STORE, p);
  }

  lemma UnpinnedVerifies(s: Store)
    requires s.repo == "a" && s.source == "github" && s.prs == [RowWith(1, LaterEvidence())]
    requires GroupsIn(s, "a") == [BoundGroup("a", "first", [1])]
    ensures VerifyGroup(s, "g", Faithful) == Done(Verified(BoundGroup("a", "first", [1]), [LaterEvidence()], true))
    ensures !Pinned(s, BoundGroup("a", "first", [1]))
  {
    hide BoundGroup, Digest, RecaptureAll;
    var g := BoundGroup("a", "first", [1]);
    GroupKeepsNames("a", "first", [1]);
    BoundRevisionsAre("a", "first", [1]);
    OneDigest();
    OneRecaptured();
    SortNumbersOfSorted([1]);
    assert s.prs[1..] == [] && RowsOf(s.prs, 1) == s.prs;
    assert MatchingGroups([g][1..], "g") == [];
    assert g.memberRevisions[0] in g.memberRevisions && |g.memberRevisions[0].cacheSnapshotId| == 0
           && |LaterEvidence().cacheSnapshotId| == 5;
  }

  lemma OneDigest()
    ensures Digest([LaterEvidence()]) == BoundGroup("a", "first", [1]).digest
  {
    hide Digest;
    BoundRevisionsAre("a", "first", [1]);
    DigestOfOne(LaterEvidence());
    DigestOfOne(RevisionAt(1, "first"));
  }

  lemma DigestOfOne(r: RevisionEvidence)
    ensures Digest([r]) == [r.(cacheSnapshotId := "")]
  {
    assert [r][1..] == [];
  }

  lemma OneRecaptured()
    requires RowsOf([RowWith(1, LaterEvidence())], 1) == [RowWith(1, LaterEvidence())]
    ensures RecaptureAll("github", [RowWith(1, LaterEvidence())], [1], Faithful) == Done([LaterEvidence()])
  {
    var prs := [RowWith(1, LaterEvidence())];
    assert [1][1..] == [];
    assert Recapture("github", prs[0], Faithful) == Done(LaterEvidence());
    assert RecaptureAll("github", prs, [1][1..], Faithful) == Done([]);
    assert [LaterEvidence()] + [] == [LaterEvidence()];
  }

  lemma UnpinnedDecides(s: Store)
    requires ValidStore(s) && s.repo == "a" && s.version == 1 && s.decisionEvents == [] && s.decisionKeys == map[]
    requires VerifyGroup(s, "g", Faithful) == Done(Verified(BoundGroup("a", "first", [1]), [LaterEvidence()], true))
    ensures Decide(s, DECIDING, "", None, Faithful, "decision").Committed?
  {
    hide VerifyGroup, BoundGroup, Digest, AcyclicRows, FreeRuleId, QueueOf, Upserted;
    var v := Verified(BoundGroup("a", "first", [1]), [LaterEvidence()], true);
    var request := DecisionRequest("a", "g", Rejected, "someone");
    var decided := Decided(s, DECIDING, v, "", request, "decision");
    assert decided.decisionEvents == [EventFor(s, DECIDING, v, "decision")];
    assert ValidStore(decided.(version := 2));
    QueueIsNotValidated(decided.(version := 2), QueueOf(decided));
    assert Refreshed(decided).(version := 2) == decided.(version := 2).(queue := QueueOf(decided));
  }

  /** A run whose decision is committed and leaves its group where it needs attention. */
  lemma DecisionWithoutEffect()
    ensures var s := Run(EMPTY_STORE, [Unpinned()]);
            var o := Decide(s, DECIDING, "", None, Faithful, "decision");
            && o.Committed? && PileOf(QueueView(o.store), BoundGroup("a", "first", [1])).Needs?
  {
    hide Run, Step, Unpinned, Decide, BoundGroup, VerifyGroup, PileOf, Pinned, CurrentRevisions, ValidStore;
    OneCommand(EMPTY_STORE, Unpinned());
    UnpinnedLeadsTo();
    var s := Run(EMPTY_STORE, [Unpinned()]);
    UnpinnedVerifies(s);
    UnpinnedDecides(s);
    NoLocalRows(s);
    var v := DecisionTakesEffect([Unpinned()], DECIDING, "", None, Faithful, "decision");
  }

  lemma NoLocalRows(s: Store)
    requires s.dispositions == []
    ensures forall n :: !Local(QueueView(s), n)
  {
    hide CurrentRevisions, QueueRepo, RulesFor;
  }
}
