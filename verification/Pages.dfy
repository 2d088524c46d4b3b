/**
 Version-pinned pages of triage/service.py and triage/store.py: a list read page by page
 while writers interleave is one consistent list, or the read fails as stale.
 */
module Pages {
  import opened Models
  import opened Records
  import opened StoreRuns

  // ---- one page ----

  /** `_page_info`, and the page itself as the slice that every list operation takes. */
  datatype Page<T> = Page(rows: seq<T>, total: nat, pages: nat, next: Option<nat>, truncated: nat)

  function Min(a: nat, b: nat): nat { if a < b then a else b }

  function PageOf<T>(rows: seq<T>, page: nat, size: nat): Page<T>
    requires page >= 1 && size >= 1
  {
    var total := |rows|;
    var pages := (total + size - 1) / size;
    var start := (page - 1) * size;
    Page(rows[Min(start, total)..Min(start + size, total)], total, pages,
         if page < pages then Some(page + 1) else None,
         if total > Min(total, start + size) then total - Min(total, start + size) else 0)
  }

  /** Pages that are not the last are full, and nothing follows the last. */
  lemma PageCovers<T>(rows: seq<T>, page: nat, size: nat)
    requires page >= 1 && size >= 1
    requires page == 1 || (page - 1) * size < |rows|
    ensures var p := PageOf(rows, page, size);
            && rows[..Min((page - 1) * size, |rows|)] + p.rows == rows[..Min(page * size, |rows|)]
            && (p.next.Some? <==> page * size < |rows|) && (p.next.Some? ==> p.next.value == page + 1)
            && p.truncated == |rows| - Min(page * size, |rows|)
  {
    assert (page - 1) * size + size == page * size;
    PagesCount(|rows|, page, size);
  }

  /** More pages follow exactly when this one does not reach the end. */
  lemma PagesCount(total: nat, page: nat, size: nat)
    requires size >= 1
    ensures page < (total + size - 1) / size <==> page * size < total
  {
    var pages := (total + size - 1) / size;
    assert pages * size <= total + size - 1 < pages * size + size;
    if page < pages {
      assert (page + 1) * size <= pages * size by { MulMonotone(page + 1, pages, size); }
    } else {
      assert pages * size <= page * size by { MulMonotone(pages, page, size); }
    }
  }

  lemma MulMonotone(a: nat, b: nat, c: nat)
    requires a <= b
    ensures a * c <= b * c
  {}

  // ---- one read ----

  datatype Context = Context(storeVersion: nat, snapshotVersion: nat)

  function ContextOf(s: Store): Context { Context(s.version, s.snapshotVersion) }

  datatype Read<T> = Answer(page: Page<T>, context: Context) | StaleVersion | StaleSnapshot | SnapshotRequired

  /** A list operation: version checks of `_context`, then `_continuation_guard`, then the page. */
  function ReadPage<T>(s: Store, list: Store -> seq<T>, page: nat, size: nat, store: Option<nat>,
                       snapshot: Option<nat>): Read<T>
    requires page >= 1 && size >= 1
  {
    if store.Some? && store.value != s.version then Read.StaleVersion
    else if snapshot.Some? && snapshot.value != s.snapshotVersion then Read.StaleSnapshot
    else if page > 1 && (store.None? || snapshot.None?) then SnapshotRequired
    else Answer(PageOf(list(s), page, size), ContextOf(s))
  }

  /**
   A page is answered exactly when the versions that are supplied are those of the store, and a later
   page supplies both; the version of the store is told from that of the snapshot first.
   */
  lemma AnswersIff<T>(s: Store, list: Store -> seq<T>, page: nat, size: nat, store: Option<nat>, snapshot: Option<nat>)
    requires page >= 1 && size >= 1
    ensures var r := ReadPage(s, list, page, size, store, snapshot);
            && (r.Answer? <==>
                  && store in {None, Some(s.version)} && snapshot in {None, Some(s.snapshotVersion)}
                  && (page == 1 || (store != None && snapshot != None)))
            && (r.StaleVersion? <==> store !in {None, Some(s.version)})
            && (r.StaleSnapshot? <==> store in {None, Some(s.version)} && snapshot !in {None, Some(s.snapshotVersion)})
            && (r.Answer? ==> r.context.storeVersion == s.version && r.context.snapshotVersion == s.snapshotVersion)
  {}

  // ---- histories of the store ----

  /** Restoring a backup over a readable store, at wall-clock millisecond `now`. */
  ghost function Restore(s: Store, backup: Store, now: nat): Outcome<()> {
    var highest := if backup.version > s.version then backup.version else s.version;
    var version := if now > highest + 1 then now else highest + 1;
    var snapshot := if backup.snapshotVersion > s.snapshotVersion then backup.snapshotVersion else s.snapshotVersion;
    var restored := backup.(version := version, snapshotVersion := snapshot);
    if highest >= MAX_SAFE_INTEGER || version > MAX_SAFE_INTEGER then Refused(VersionExhausted)
    else if !ValidStore(restored) then Refused(Corrupt)
    else Committed(restored, ())
  }

  /**
   A restored store is newer than both the store it replaces and the backup, and not older than the clock;
   neither of its versions is larger than that asks for. Everything else is the backup's.
   */
  lemma RestoreGrows(s: Store, backup: Store, now: nat)
    requires Restore(s, backup, now).Committed?
    ensures var t := Restore(s, backup, now).store;
            && t.version > s.version && t.version > backup.version && t.version >= now
            && t.version in {now, s.version + 1, backup.version + 1}
            && t.snapshotVersion >= s.snapshotVersion && t.snapshotVersion >= backup.snapshotVersion
            && t.snapshotVersion in {s.snapshotVersion, backup.snapshotVersion}
            && t == backup.(version := t.version, snapshotVersion := t.snapshotVersion)
  {
    hide ValidStore;
  }

  /** A backup is restored exactly when there is a version for it and it is valid at that version. */
  lemma RestoreIff(s: Store, backup: Store, now: nat)
    ensures Restore(s, backup, now).Committed? <==>
            && s.version < MAX_SAFE_INTEGER && backup.version < MAX_SAFE_INTEGER && now <= MAX_SAFE_INTEGER
            && exists v: nat, w: nat {:trigger backup.(version := v, snapshotVersion := w)} ::
                 && v > s.version && v > backup.version && v >= now && v in {now, s.version + 1, backup.version + 1}
                 && w >= s.snapshotVersion && w >= backup.snapshotVersion
                 && w in {s.snapshotVersion, backup.snapshotVersion}
                 && ValidStore(backup.(version := v, snapshotVersion := w))
    ensures !Restore(s, backup, now).Committed? ==>
              Restore(s, backup, now) ==
              Refused(if s.version < MAX_SAFE_INTEGER && backup.version < MAX_SAFE_INTEGER && now <= MAX_SAFE_INTEGER
                      then Corrupt else VersionExhausted)
  {
    hide ValidStore;
    if Restore(s, backup, now).Committed? {
      var t := Restore(s, backup, now).store;
      assert t == backup.(version := t.version, snapshotVersion := t.snapshotVersion);
    }
  }

  datatype Event = Written(command: Command) | Restored(backup: Store, now: nat)

  ghost function Next(s: Store, e: Event): Store {
    match e
    case Written(c) => Step(s, c)
    case Restored(backup, now) => StoreAfter(s, Restore(s, backup, now))
  }

  /** The store after each event of any interleaving. */
  ghost function History(s: Store, events: nat -> Event, t: nat): Store {
    if t == 0 then s else Next(History(s, events, t - 1), events(t - 1))
  }

  lemma {:induction false} RunOneMore(s: Store, commands: seq<Command>, c: Command)
    ensures Run(s, commands + [c]) == Step(Run(s, commands), c)
    decreases |commands|
  {
    hide Step;
    if commands == [] {
      assert [] + [c] == [c] && [c][1..] == [];
    } else {
      assert (commands + [c])[1..] == commands[1..] + [c];
      RunOneMore(Step(s, commands[0]), commands[1..], c);
    }
  }

  /** Without restores a history is a run of its commands. */
  lemma {:induction false} HistoryIsRun(s: Store, events: nat -> Event, commands: seq<Command>)
    requires forall i: nat | i < |commands| :: events(i) == Written(commands[i])
    ensures History(s, events, |commands|) == Run(s, commands)
    decreases |commands|
  {
    hide Step, Run, Restore;
    if commands == [] {
      NothingRun(s);
    } else {
      var n := |commands| - 1;
      HistoryIsRun(s, events, commands[..n]);
      RunOneMore(s, commands[..n], commands[n]);
      assert commands == commands[..n] + [commands[n]];
    }
  }

  lemma NothingRun(s: Store)
    ensures Run(s, []) == s
  {}

  lemma {:induction false} HistoryAdvances(s: Store, events: nat -> Event, t: nat, u: nat)
    requires t <= u
    ensures History(s, events, t).version <= History(s, events, u).version
    ensures History(s, events, t).version == History(s, events, u).version ==>
              History(s, events, t) == History(s, events, u)
  {
    hide Step, Restore, Extends, ValidStore;
    if t < u {
      HistoryAdvances(s, events, t, u - 1);
      var before := History(s, events, u - 1);
      match events(u - 1)
      case Written(c) => StepAdvances(before, c);
      case Restored(backup, now) => if Restore(before, backup, now).Committed? { RestoreGrows(before, backup, now); }
    }
  }

  // ---- a chain of continuations ----

  /**
   The answers of a client that asks for page 1 and then follows `next_page` with the
   versions of the first answer, as `_retrieval_plan` pins them; request k comes at `clock(k)`.
   */
  ghost predicate IsChain<T>(s: Store, events: nat -> Event, list: Store -> seq<T>, size: nat, clock: nat -> nat,
                             answers: seq<Read<T>>)
    requires size >= 1
  {
    && answers != []
    && answers[0] == ReadPage(History(s, events, clock(0)), list, 1, size, None, None)
    && forall k: nat {:trigger Continues(s, events, list, size, clock, answers, k)} | 0 < k < |answers| ::
         Continues(s, events, list, size, clock, answers, k)
  }

  ghost predicate Continues<T>(s: Store, events: nat -> Event, list: Store -> seq<T>, size: nat, clock: nat -> nat,
                               answers: seq<Read<T>>, k: nat)
    requires size >= 1 && 0 < k < |answers|
  {
    && answers[0].Answer? && answers[k - 1].Answer? && answers[k - 1].page.next.Some?
    && answers[k - 1].page.next.value >= 1
    && var pinned := answers[0].context;
       answers[k] == ReadPage(History(s, events, clock(k)), list, answers[k - 1].page.next.value, size,
                              Some(pinned.storeVersion), Some(pinned.snapshotVersion))
  }

  ghost predicate Later(clock: nat -> nat) {
    forall i: nat, j: nat | i <= j :: clock(i) <= clock(j)
  }

  ghost function RowsOf<T>(answers: seq<Read<T>>): seq<T>
    requires forall a | a in answers :: a.Answer?
  {
    if answers == [] then [] else RowsOf(answers[..|answers| - 1]) + answers[|answers| - 1].page.rows
  }

  /** Whatever writers do meanwhile, k answered pages are the first k pages of the list at one version. */
  lemma {:induction false} ChainIsPrefix<T>(s: Store, events: nat -> Event, list: Store -> seq<T>, size: nat,
                                            clock: nat -> nat,
                                            answers: seq<Read<T>>, k: nat)
    requires size >= 1 && Later(clock) && IsChain(s, events, list, size, clock, answers)
    requires 1 <= k <= |answers| && forall a | a in answers[..k] :: a.Answer?
    ensures var rows := list(History(s, events, clock(0)));
            && RowsOf(answers[..k]) == rows[..Min(k * size, |rows|)]
            && answers[k - 1].page == PageOf(rows, k, size)
            && (k == 1 || (k - 1) * size < |rows|)
  {
    hide History, PageOf;
    var first := History(s, events, clock(0));
    var rows := list(first);
    assert answers[..k][..k - 1] == answers[..k - 1];
    assert answers[..k][0] == answers[0] && answers[0] in answers[..k];
    if k == 1 {
      PageCovers(rows, 1, size);
      assert answers[..1][..0] == [];
    } else {
      assert answers[k - 1] in answers[..k];
      assert forall a | a in answers[..k - 1] :: a in answers[..k];
      ChainIsPrefix(s, events, list, size, clock, answers, k - 1);
      PageCovers(rows, k - 1, size);
      assert Continues(s, events, list, size, clock, answers, k - 1);
      assert clock(0) <= clock(k - 1);
      HistoryAdvances(s, events, clock(0), clock(k - 1));
      PageCovers(rows, k, size);
    }
  }

  /**
   A chain followed to its end returns the whole list as it was at one store version, each
   row once and in order; it is never longer than the number of pages.
   */
  lemma ChainIsWholeList<T>(s: Store, events: nat -> Event, list: Store -> seq<T>, size: nat, clock: nat -> nat,
                            answers: seq<Read<T>>)
    requires size >= 1 && Later(clock) && IsChain(s, events, list, size, clock, answers)
    requires (forall a | a in answers :: a.Answer?) && answers[|answers| - 1].page.next.None?
    ensures RowsOf(answers) == list(History(s, events, clock(0)))
    ensures (|answers| - 1) * size <= |list(History(s, events, clock(0)))|
  {
    hide History, PageOf;
    var n := |answers|;
    assert answers[..n] == answers;
    ChainIsPrefix(s, events, list, size, clock, answers, n);
    PageCovers(list(History(s, events, clock(0))), n, size);
  }

  /** A continuation fails, as stale, exactly when the store is no longer the one first read. */
  lemma ContinuationFailsIffMoved<T>(s: Store, events: nat -> Event, list: Store -> seq<T>, size: nat,
                                     clock: nat -> nat,
                                     answers: seq<Read<T>>, k: nat)
    requires size >= 1 && Later(clock) && IsChain(s, events, list, size, clock, answers) && 0 < k < |answers|
    ensures answers[k].Answer? <==> History(s, events, clock(k)) == History(s, events, clock(0))
    ensures !answers[k].Answer? ==> answers[k].StaleVersion?
  {
    hide History, PageOf;
    assert Continues(s, events, list, size, clock, answers, k);
    assert clock(0) <= clock(k);
    HistoryAdvances(s, events, clock(0), clock(k));
  }
}
