/**
 What every published snapshot tells: over any number of refreshes, crashed or not, each
 file list is the true one for the head/base pair published with it.
 */
module SnapshotTruth {
  import opened Models
  import opened Snapshots

  /**
   The repository over time: the pair a pull request is at, and the file list of a number
   at a pair. Closed pull requests keep their pair.
   */
  datatype World = World(pair: (nat, int) -> Pair, content: (int, Pair) -> Files)

  /** A pull request never returns to an earlier pair. */
  ghost predicate NoReturn(w: World) {
    forall n: int, s: nat, t: nat, u: nat {:trigger w.pair(s, n), w.pair(t, n), w.pair(u, n)} |
      s <= t <= u && w.pair(s, n) == w.pair(u, n) :: w.pair(t, n) == w.pair(s, n)
  }

  /**
   When the remote looked: `listed(k, n)` is when listing k read number n, `fetched(k, n)`
   when round k downloaded its files, in between. Listings need not be instantaneous.
   */
  datatype Clock = Clock(listed: (nat, int) -> nat, fetched: (nat, int) -> nat)

  ghost predicate Faithful(w: World, c: Clock, remote: Remote) {
    && (forall k: nat, n: int :: c.listed(k, n) <= c.fetched(k, n) <= c.listed(k + 1, n))
    && (forall k: nat, item: Item {:trigger ListsItem(remote, k, item)} |
          ListsItem(remote, k, item) && item.revision.Some? ::
          PairOf(item.revision.value) == w.pair(c.listed(k, item.number), item.number))
    && (forall k: nat, n: int | remote.files(k, n).Ok? ::
          remote.files(k, n).value == w.content(n, w.pair(c.fetched(k, n), n)))
  }

  ghost predicate ListsItem(remote: Remote, k: nat, item: Item) {
    remote.listing(k).Ok? && item in remote.listing(k).value
  }

  /** Every manifest entry has its file, and the file is the true one for the recorded pair. */
  ghost predicate Truthful(w: World, dir: Directory) {
    dir.meta.Some? ==>
      forall n | n in dir.meta.value.revisions ::
        n in dir.files && dir.files[n] == w.content(n, PairOf(dir.meta.value.revisions[n]))
  }

  /** Evidence that is true for its pair, or was downloaded after its pair was listed. */
  ghost predicate Captured(w: World, n: int, e: Evidence, now: nat) {
    || e.files == w.content(n, PairOf(e.revision))
    || exists s: nat, t: nat ::
         s <= t <= now && w.pair(s, n) == PairOf(e.revision) && e.files == w.content(n, w.pair(t, n))
  }

  /** The invariant of the rounds, before listing k. */
  ghost predicate StagedCaptured(w: World, c: Clock, staged: Staged, k: nat) {
    forall n | n in staged :: Captured(w, n, staged[n], c.listed(k, n))
  }

  lemma CapturedLater(w: World, n: int, e: Evidence, now: nat, later: nat)
    requires Captured(w, n, e, now) && now <= later
    ensures Captured(w, n, e, later)
  {}

  /** The pair was listed before the download and again after it, so the download saw that pair. */
  lemma ConfirmedIsTrue(w: World, n: int, e: Evidence, now: nat)
    requires NoReturn(w) && Captured(w, n, e, now) && w.pair(now, n) == PairOf(e.revision)
    ensures e.files == w.content(n, PairOf(e.revision))
  {}

  lemma ItemCaptured(w: World, c: Clock, remote: Remote, staged: Staged, cached: Directory, item: Item, scope: Scope,
                     k: nat)
    requires Faithful(w, c, remote) && Truthful(w, cached) && StagedCaptured(w, c, staged, k)
             && ListsItem(remote, k, item)
    requires StageItem(staged, cached, item, scope, k, remote).Ok?
             && StageItem(staged, cached, item, scope, k, remote).value.Some?
    ensures Captured(w, item.number, StageItem(staged, cached, item, scope, k, remote).value.value,
                     c.listed(k + 1, item.number))
  {
    var n := item.number;
    assert c.listed(k, n) <= c.fetched(k, n) <= c.listed(k + 1, n);
    assert w.pair(c.listed(k, n), n) == PairOf(item.revision.value);
    if n in staged && SamePair(staged[n].revision, item.revision.value) {
      CapturedLater(w, n, staged[n], c.listed(k, n), c.listed(k + 1, n));
    }
  }

  lemma StageKeepsCaptured(w: World, c: Clock, remote: Remote, staged: Staged, cached: Directory,
                           listing: seq<Item>, scope: Scope, k: nat)
    requires Faithful(w, c, remote) && Truthful(w, cached) && StagedCaptured(w, c, staged, k)
    requires Listing(remote, k) == Ok(listing) && Stage(staged, cached, listing, scope, k, remote).Ok?
    ensures StagedCaptured(w, c, Stage(staged, cached, listing, scope, k, remote).value, k + 1)
  {
    var staged' := Stage(staged, cached, listing, scope, k, remote).value;
    forall n | n in staged'
      ensures Captured(w, n, staged'[n], c.listed(k + 1, n))
    {
      assert c.listed(k, n) <= c.fetched(k, n) <= c.listed(k + 1, n);
      if n in ListedNumbers(listing) {
        assert ListsItem(remote, k, Find(listing, n).value);
        ItemCaptured(w, c, remote, staged, cached, Find(listing, n).value, scope, k);
      } else {
        CapturedLater(w, n, staged[n], c.listed(k, n), c.listed(k + 1, n));
      }
    }
  }

  /** What every staging step keeps holds where the rounds end. */
  lemma {:induction false} RoundsKeep(stage: (Staged, seq<Item>, nat) -> Answer<Staged>, list: nat -> Answer<seq<Item>>,
                                      scope: Scope, staged: Staged, listing: seq<Item>, k: nat,
                                      inv: (Staged, nat) -> bool)
    requires k <= MAX_RECONCILIATION_ROUNDS && list(k) == Ok(listing) && inv(staged, k)
    requires forall st: Staged, l: seq<Item>, j: nat | inv(st, j) && list(j) == Ok(l) && stage(st, l, j).Ok? ::
               inv(stage(st, l, j).value, j + 1)
    requires Rounds(stage, list, scope, staged, listing, k).Ok?
    ensures var s := Rounds(stage, list, scope, staged, listing, k).value;
            s.round <= MAX_RECONCILIATION_ROUNDS && list(s.round + 1) == Ok(s.listing) && inv(s.staged, s.round + 1)
    decreases MAX_RECONCILIATION_ROUNDS - k
  {
    var staged' := stage(staged, listing, k).value;
    var confirmed := list(k + 1).value;
    assert inv(staged', k + 1);
    if RevisionChanged(listing, confirmed, scope) && k < MAX_RECONCILIATION_ROUNDS {
      RoundsKeep(stage, list, scope, staged', confirmed, k + 1, inv);
    }
  }

  /** A published directory is truthful, whatever it reused from earlier rounds or snapshots. */
  lemma MaterializedTruthful(w: World, c: Clock, remote: Remote, s: Settled, id: string, generation: int)
    requires NoReturn(w) && Faithful(w, c, remote)
    requires Listing(remote, s.round + 1) == Ok(s.listing) && StagedCaptured(w, c, s.staged, s.round + 1)
    ensures Truthful(w, Materialize(s, id, generation))
  {
    forall n | n in UsableNumbers(s)
      ensures s.staged[n].files == w.content(n, PairOf(Find(s.listing, n).value.revision.value))
    {
      var item := Find(s.listing, n).value;
      assert ListsItem(remote, s.round + 1, item);
      ConfirmedIsTrue(w, n, s.staged[n], c.listed(s.round + 1, n));
    }
  }

  ghost predicate AllTruthful(w: World, disk: Disk) {
    forall id | id in disk.dirs :: Truthful(w, disk.dirs[id])
  }

  ghost function CapturedAt(w: World, c: Clock): (Staged, nat) -> bool {
    (staged: Staged, k: nat) => StagedCaptured(w, c, staged, k)
  }

  lemma StagerKeepsCaptured(w: World, c: Clock, remote: Remote, cached: Directory, scope: Scope, st: Staged,
                            l: seq<Item>, j: nat)
    requires Faithful(w, c, remote) && Truthful(w, cached)
    requires CapturedAt(w, c)(st, j) && Lister(remote)(j) == Ok(l) && Stager(cached, scope, remote)(st, l, j).Ok?
    ensures CapturedAt(w, c)(Stager(cached, scope, remote)(st, l, j).value, j + 1)
  {
    StageKeepsCaptured(w, c, remote, st, cached, l, scope, j);
  }

  lemma ReconciledCaptured(w: World, c: Clock, remote: Remote, cached: Directory, scope: Scope, listing: seq<Item>)
    requires Faithful(w, c, remote) && Truthful(w, cached) && Lister(remote)(0) == Ok(listing)
    requires Rounds(Stager(cached, scope, remote), Lister(remote), scope, map[], listing, 0).Ok?
    ensures var s := Rounds(Stager(cached, scope, remote), Lister(remote), scope, map[], listing, 0).value;
            Lister(remote)(s.round + 1) == Ok(s.listing) && CapturedAt(w, c)(s.staged, s.round + 1)
  {
    var stage, list, inv := Stager(cached, scope, remote), Lister(remote), CapturedAt(w, c);
    forall st: Staged, l: seq<Item>, j: nat | inv(st, j) && list(j) == Ok(l) && stage(st, l, j).Ok?
      ensures inv(stage(st, l, j).value, j + 1)
    {
      StagerKeepsCaptured(w, c, remote, cached, scope, st, l, j);
    }
    RoundsKeep(stage, list, scope, map[], listing, 0, inv);
  }

  lemma ReconciledTruthful(w: World, c: Clock, disk: Disk, limit: nat, id: string, remote: Remote)
    requires NoReturn(w) && Faithful(w, c, remote) && AllTruthful(w, disk)
    requires Reconcile(disk, limit, remote).Ok?
    ensures Truthful(w, Materialize(Reconcile(disk, limit, remote).value, id, NextGeneration(disk)))
  {
    hide NoReturn, Faithful, Rounds, Materialize, StagedCaptured;
    var cached, listing := ReadRoot(disk).value, Listing(remote, 0).value;
    assert Truthful(w, cached);
    ReconciledCaptured(w, c, remote, cached, ScopeOf(listing, limit), listing);
    MaterializedTruthful(w, c, remote, Reconcile(disk, limit, remote).value, id, NextGeneration(disk));
  }

  // ---- any number of refreshes ----

  /** How an attempt ends: published, or stopped with a directory that was not yet published. */
  datatype Ending = Published | Stopped(partial: Directory)

  datatype Attempt = Attempt(limit: nat, id: string, remote: Remote, clock: Clock, ending: Ending)

  /** A stopped attempt leaves a directory without manifest, or the complete one without the new `active.json`. */
  ghost predicate Possible(disk: Disk, a: Attempt) {
    a.id !in disk.dirs &&
    (a.ending.Stopped? && a.ending.partial.meta.Some? ==>
       Reconcile(disk, a.limit, a.remote).Ok?
       && a.ending.partial == Materialize(Reconcile(disk, a.limit, a.remote).value, a.id, NextGeneration(disk)))
  }

  ghost function After(disk: Disk, a: Attempt): Disk {
    match a.ending
    case Published => Refresh(disk, a.limit, a.id, a.remote)
    case Stopped(partial) => disk.(dirs := disk.dirs[a.id := partial])
  }

  ghost function RunOf(disk: Disk, attempts: seq<Attempt>): Disk
    decreases |attempts|
  {
    if attempts == [] then disk else RunOf(After(disk, attempts[0]), attempts[1..])
  }

  ghost predicate PossibleRun(disk: Disk, attempts: seq<Attempt>)
    decreases |attempts|
  {
    attempts != [] ==> Possible(disk, attempts[0]) && PossibleRun(After(disk, attempts[0]), attempts[1..])
  }

  /** Over any run, every manifest entry of every snapshot is the true file list for its pair. */
  lemma {:induction false} RunTruthful(w: World, disk: Disk, attempts: seq<Attempt>)
    requires NoReturn(w) && AllTruthful(w, disk) && PossibleRun(disk, attempts)
    requires forall a | a in attempts :: Faithful(w, a.clock, a.remote)
    ensures AllTruthful(w, RunOf(disk, attempts))
    decreases |attempts|
  {
    if attempts != [] {
      var a := attempts[0];
      assert a in attempts;
      if Reconcile(disk, a.limit, a.remote).Ok? {
        ReconciledTruthful(w, a.clock, disk, a.limit, a.id, a.remote);
      }
      assert AllTruthful(w, After(disk, a));
      RunTruthful(w, After(disk, a), attempts[1..]);
    }
  }

  /** Evidence read from one pinned snapshot directory. */
  function ReadEvidence(disk: Disk, id: string, n: int): Option<(Item, Option<Files>)> {
    if !Complete(disk, id) || Find(disk.dirs[id].pulls.value, n).None? then None
    else
      var dir := disk.dirs[id];
      var item := Find(dir.pulls.value, n).value;
      var matches := item.revision.Some? && n in dir.meta.value.revisions
        && dir.meta.value.revisions[n] == item.revision.value;
      Some((item, if matches && n in dir.files then Some(dir.files[n]) else None))
  }

  /** A read pinned to a snapshot returns the same evidence after any later attempts. */
  lemma {:induction false} PinnedReadStable(disk: Disk, attempts: seq<Attempt>, id: string, n: int)
    requires PossibleRun(disk, attempts) && id in disk.dirs
    ensures id in RunOf(disk, attempts).dirs && RunOf(disk, attempts).dirs[id] == disk.dirs[id]
    ensures ReadEvidence(RunOf(disk, attempts), id, n) == ReadEvidence(disk, id, n)
    decreases |attempts|
  {
    if attempts != [] {
      PinnedReadStable(After(disk, attempts[0]), attempts[1..], id, n);
    }
  }

  /** The attempt got as far as replacing `active.json`. */
  ghost predicate Publishes(disk: Disk, a: Attempt) { a.ending.Published? && Reconcile(disk, a.limit, a.remote).Ok? }

  /** The id of the last attempt that published, or what was active before them all. */
  ghost function LastPublished(disk: Disk, attempts: seq<Attempt>, before: Option<string>): Option<string>
    decreases |attempts|
  {
    if attempts == [] then before
    else
      LastPublished(After(disk, attempts[0]), attempts[1..],
                    if Publishes(disk, attempts[0]) then Some(attempts[0].id) else before)
  }

  ghost function Publications(disk: Disk, attempts: seq<Attempt>): nat
    decreases |attempts|
  {
    if attempts == [] then 0
    else (if Publishes(disk, attempts[0]) then 1 else 0) + Publications(After(disk, attempts[0]), attempts[1..])
  }

  lemma AttemptResolves(disk: Disk, a: Attempt)
    requires Possible(disk, a) && Resolve(disk).Ok?
    ensures Resolve(After(disk, a)) == if Publishes(disk, a) then Ok(Some(a.id)) else Resolve(disk)
    ensures NextGeneration(After(disk, a)) == NextGeneration(disk) + (if Publishes(disk, a) then 1 else 0)
  {
    hide Reconcile;
  }

  /**
   After any run `active.json` resolves to the last published snapshot, and the generation counts
   the publications.
   */
  lemma {:induction false} RunResolves(disk: Disk, attempts: seq<Attempt>)
    requires PossibleRun(disk, attempts) && Resolve(disk).Ok?
    ensures Resolve(RunOf(disk, attempts)) == Ok(LastPublished(disk, attempts, Resolve(disk).value))
    ensures NextGeneration(RunOf(disk, attempts)) == NextGeneration(disk) + Publications(disk, attempts)
    decreases |attempts|
  {
    hide Resolve, Possible, After, Publishes, NextGeneration;
    if attempts != [] {
      AttemptResolves(disk, attempts[0]);
      RunResolves(After(disk, attempts[0]), attempts[1..]);
    }
  }

  /** From a cache without a snapshot the active generation is the number of publications so far. */
  lemma GenerationsCount(disk: Disk, attempts: seq<Attempt>)
    requires PossibleRun(disk, attempts) && disk.active == None
    ensures var active := RunOf(disk, attempts).active;
            if active.Some? then active.value.generation == Publications(disk, attempts)
            else Publications(disk, attempts) == 0
  {
    hide PossibleRun, RunOf, Publications;
    RunResolves(disk, attempts);
  }

  // ---- bounds and honesty, for every remote ----

  /** Every in-scope pull request of the final listing with a known revision has usable files. */
  ghost predicate HonestlySettled(s: Settled, scope: Scope) {
    forall n | n in ListedNumbers(s.listing) && InScope(scope, n) && Find(s.listing, n).value.revision.Some? ::
      Usable(s, n)
  }

  lemma StableListingIsStaged(staged: Staged, cached: Directory, listing: seq<Item>, confirmed: seq<Item>, scope: Scope,
                              k: nat, remote: Remote)
    requires Stage(staged, cached, listing, scope, k, remote).Ok? && !RevisionChanged(listing, confirmed, scope)
    ensures HonestlySettled(Settled(k, Stage(staged, cached, listing, scope, k, remote).value, confirmed), scope)
  {
    var staged' := Stage(staged, cached, listing, scope, k, remote).value;
    forall n | n in ListedNumbers(confirmed) && InScope(scope, n) && Find(confirmed, n).value.revision.Some?
      ensures Usable(Settled(k, staged', confirmed), n)
    {
      assert !Moved(listing, confirmed, n);
      var item := Find(listing, n).value;
      assert n in ListedNumbers(listing);
      assert StagedAs(staged, cached, listing, scope, k, remote, n).Ok?;
    }
  }

  /** An early exit leaves the last staging step and a confirming listing that did not move. */
  lemma {:induction false} RoundsEnd(stage: (Staged, seq<Item>, nat) -> Answer<Staged>, list: nat -> Answer<seq<Item>>,
                                     scope: Scope, staged: Staged, listing: seq<Item>, k: nat)
    returns (before: Staged, current: seq<Item>)
    requires k <= MAX_RECONCILIATION_ROUNDS && Rounds(stage, list, scope, staged, listing, k).Ok?
    ensures var s := Rounds(stage, list, scope, staged, listing, k).value;
            && s.round <= MAX_RECONCILIATION_ROUNDS && list(s.round + 1) == Ok(s.listing)
            && stage(before, current, s.round) == Ok(s.staged)
            && (s.round < MAX_RECONCILIATION_ROUNDS ==> !RevisionChanged(current, s.listing, scope))
    decreases MAX_RECONCILIATION_ROUNDS - k
  {
    var staged' := stage(staged, listing, k).value;
    var confirmed := list(k + 1).value;
    if RevisionChanged(listing, confirmed, scope) && k < MAX_RECONCILIATION_ROUNDS {
      before, current := RoundsEnd(stage, list, scope, staged', confirmed, k + 1);
    } else {
      before, current := staged, listing;
    }
  }

  /**
   Leaving before the round cap means nothing in scope is missing: every number still listed with a
   known revision that is among the first `limit` of the first listing has usable files.
   */
  lemma EarlyExitIsComplete(disk: Disk, limit: nat, remote: Remote)
    requires Reconcile(disk, limit, remote).Ok?
    ensures var s := Reconcile(disk, limit, remote).value;
            && s.round <= MAX_RECONCILIATION_ROUNDS && ValidListing(s.listing)
            && (s.round < MAX_RECONCILIATION_ROUNDS ==>
                  forall item | item in s.listing && item.revision.Some?
                                && AmongFirst(Listing(remote, 0).value, limit, item.number) ::
                    && item.number in s.staged && Usable(s, item.number)
                    && PairOf(s.staged[item.number].revision) == PairOf(item.revision.value))
  {
    var cached, listing := ReadRoot(disk).value, Listing(remote, 0).value;
    var scope := ScopeOf(listing, limit);
    var before, current := RoundsEnd(Stager(cached, scope, remote), Lister(remote), scope, map[], listing, 0);
    var s := Reconcile(disk, limit, remote).value;
    if s.round < MAX_RECONCILIATION_ROUNDS {
      StableListingIsStaged(before, cached, current, s.listing, scope, s.round, remote);
      ScopeIsFirst(listing, limit);
      forall item | item in s.listing && item.revision.Some? && AmongFirst(listing, limit, item.number)
        ensures Usable(s, item.number) && PairOf(s.staged[item.number].revision) == PairOf(item.revision.value)
      {
        FindIs(s.listing, item);
        assert InScope(scope, item.number) && item.number in ListedNumbers(s.listing);
      }
    }
  }

  // ---- reuse ----

  /** Every listing lists the number with this head and base. */
  ghost predicate Unmoved(remote: Remote, n: int, pair: Pair) {
    forall k: nat | Listing(remote, k).Ok? ::
      exists item :: item in Listing(remote, k).value && item.number == n && item.revision.Some?
                     && PairOf(item.revision.value) == pair
  }

  ghost predicate Reused(staged: Staged, n: int, pair: Pair, files: Files) {
    n in staged && PairOf(staged[n].revision) == pair && staged[n].files == files
  }

  ghost function ReusedFrom(n: int, pair: Pair, files: Files): (Staged, nat) -> bool {
    (staged: Staged, k: nat) => (n in staged || k > 0) ==> Reused(staged, n, pair, files)
  }

  lemma StageReuses(cached: Directory, scope: Scope, remote: Remote, n: int, staged: Staged, listing: seq<Item>, k: nat)
    requires cached.meta.Some? && n in cached.meta.value.revisions && n in cached.files
    requires Unmoved(remote, n, PairOf(cached.meta.value.revisions[n])) && Listing(remote, k) == Ok(listing)
    requires ReusedFrom(n, PairOf(cached.meta.value.revisions[n]), cached.files[n])(staged, k)
    requires Stage(staged, cached, listing, scope, k, remote).Ok?
    ensures Reused(Stage(staged, cached, listing, scope, k, remote).value, n, PairOf(cached.meta.value.revisions[n]),
                   cached.files[n])
  {
    hide Listing, ValidListing, StageFails;
    var item :| item in listing && item.number == n && item.revision.Some?
                && PairOf(item.revision.value) == PairOf(cached.meta.value.revisions[n]);
    ListingIsValid(remote, k);
    FindIs(listing, item);
    ItemReuses(cached, scope, remote, item, staged, k);
    var outcome := StagedAs(staged, cached, listing, scope, k, remote, n);
    assert outcome == StageItem(staged, cached, item, scope, k, remote);
    assert Outcomes(staged, cached, listing, scope, k, remote)(n) == outcome.value;
  }

  /** Staging a number whose pair is staged or cached keeps those files, whatever the remote would answer. */
  lemma ItemReuses(cached: Directory, scope: Scope, remote: Remote, item: Item, staged: Staged, k: nat)
    requires item.revision.Some? && cached.meta.Some?
    requires item.number in cached.meta.value.revisions && item.number in cached.files
    requires PairOf(item.revision.value) == PairOf(cached.meta.value.revisions[item.number])
    requires item.number in staged ==>
               Reused(staged, item.number, PairOf(item.revision.value), cached.files[item.number])
    ensures var r := StageItem(staged, cached, item, scope, k, remote);
            && r.Ok? && r.value.Some? && PairOf(r.value.value.revision) == PairOf(item.revision.value)
            && r.value.value.files == cached.files[item.number]
  {}

  lemma ListingIsValid(remote: Remote, k: nat)
    ensures Listing(remote, k).Ok? ==> ValidListing(Listing(remote, k).value)
  {}

  /**
   Files that the active snapshot has for a head and base stay: while every listing states that
   pair they are published again, inside the file cap or outside, whatever the remote would answer.
   */
  lemma UnmovedIsReused(disk: Disk, limit: nat, remote: Remote, n: int)
    requires Reconcile(disk, limit, remote).Ok? && Resolve(disk).Ok? && Resolve(disk).value.Some?
    requires var dir := disk.dirs[Resolve(disk).value.value];
             && dir.meta.Some? && n in dir.meta.value.revisions && n in dir.files
             && Unmoved(remote, n, PairOf(dir.meta.value.revisions[n]))
    ensures var s := Reconcile(disk, limit, remote).value;
            var dir := disk.dirs[Resolve(disk).value.value];
            && Usable(s, n) && s.staged[n].files == dir.files[n]
            && PairOf(s.staged[n].revision) == PairOf(dir.meta.value.revisions[n])
  {
    hide Rounds, Listing, Stage, ValidListing, Unmoved, Reused, Usable;
    var dir := disk.dirs[Resolve(disk).value.value];
    var cached, listing := ReadRoot(disk).value, Listing(remote, 0).value;
    var pair := PairOf(dir.meta.value.revisions[n]);
    var scope, inv := ScopeOf(listing, limit), ReusedFrom(n, pair, dir.files[n]);
    var stage, list := Stager(cached, scope, remote), Lister(remote);
    forall st: Staged, l: seq<Item>, j: nat | inv(st, j) && list(j) == Ok(l) && stage(st, l, j).Ok?
      ensures inv(stage(st, l, j).value, j + 1)
    {
      StageReuses(cached, scope, remote, n, st, l, j);
    }
    RoundsKeep(stage, list, scope, map[], listing, 0, inv);
    ReusedIsUsable(remote, Reconcile(disk, limit, remote).value, n, pair, dir.files[n]);
  }

  lemma ReusedIsUsable(remote: Remote, s: Settled, n: int, pair: Pair, files: Files)
    requires Unmoved(remote, n, pair) && Listing(remote, s.round + 1) == Ok(s.listing)
    requires Reused(s.staged, n, pair, files)
    ensures Usable(s, n) && s.staged[n].files == files && PairOf(s.staged[n].revision) == pair
  {
    hide Listing, ValidListing;
    var item :| item in s.listing && item.number == n && item.revision.Some? && PairOf(item.revision.value) == pair;
    ListingIsValid(remote, s.round + 1);
    FindIs(s.listing, item);
  }

  /** The published manifest, the files beside it and what a pinned read returns are the same numbers. */
  lemma PublishedIsReadable(disk: Disk, s: Settled, id: string, generation: int, n: int)
    requires ValidListing(s.listing) && id in disk.dirs && disk.dirs[id] == Materialize(s, id, generation)
    ensures disk.dirs[id].files.Keys == disk.dirs[id].meta.value.revisions.Keys == UsableNumbers(s)
    ensures var read := ReadEvidence(disk, id, n);
            && (read.Some? <==> n in ListedNumbers(s.listing))
            && (read.Some? ==> read.value.1 == if n in UsableNumbers(s) then Some(s.staged[n].files) else None)
  {}

  // ---- why there is another round, and why there is no snapshot ----

  /** A number among the first of the first listing is new in the later listing, or states another head or base. */
  ghost predicate MovedBetween(first: seq<Item>, limit: nat, current: seq<Item>, confirmed: seq<Item>) {
    exists item :: item in confirmed && AmongFirst(first, limit, item.number)
                   && forall x | x in current && x.number == item.number :: EvidencePair(x) != EvidencePair(item)
  }

  lemma ChangedIffMoved(first: seq<Item>, limit: nat, current: seq<Item>, confirmed: seq<Item>)
    requires ValidListing(current) && ValidListing(confirmed)
    ensures RevisionChanged(current, confirmed, ScopeOf(first, limit)) <==>
            MovedBetween(first, limit, current, confirmed)
  {
    hide ScopeOf, InScope, AmongFirst, EvidencePair, Find;
    ScopeIsFirst(first, limit);
    forall x | x in current ensures Find(current, x.number) == Some(x) { FindIs(current, x); }
    forall x | x in confirmed ensures Find(confirmed, x.number) == Some(x) { FindIs(confirmed, x); }
    if n :| n in ListedNumbers(confirmed) && InScope(ScopeOf(first, limit), n) && Moved(current, confirmed, n) {
      var item := Find(confirmed, n).value;
      assert item in confirmed && item.number == n;
    }
    if item :| item in confirmed && AmongFirst(first, limit, item.number)
               && forall x | x in current && x.number == item.number :: EvidencePair(x) != EvidencePair(item) {
      assert item.number in ListedNumbers(confirmed);
      assert Moved(current, confirmed, item.number);
    }
  }

  lemma {:induction false} RoundsMoved(stage: (Staged, seq<Item>, nat) -> Answer<Staged>,
                                       list: nat -> Answer<seq<Item>>, scope: Scope, staged: Staged,
                                       listing: seq<Item>, k: nat, j: nat)
    requires k <= MAX_RECONCILIATION_ROUNDS && list(k) == Ok(listing)
    requires Rounds(stage, list, scope, staged, listing, k).Ok?
    requires k <= j < Rounds(stage, list, scope, staged, listing, k).value.round
    ensures list(j).Ok? && list(j + 1).Ok? && RevisionChanged(list(j).value, list(j + 1).value, scope)
    decreases MAX_RECONCILIATION_ROUNDS - k
  {
    hide RevisionChanged;
    var confirmed := list(k + 1).value;
    if j > k { RoundsMoved(stage, list, scope, stage(staged, listing, k).value, confirmed, k + 1, j); }
  }

  /** Another round was needed each time: the listing that followed had moved in the part that is in scope. */
  lemma EachRoundWasNeeded(disk: Disk, limit: nat, remote: Remote, j: nat)
    requires Reconcile(disk, limit, remote).Ok? && j < Reconcile(disk, limit, remote).value.round
    ensures Listing(remote, 0).Ok? && Listing(remote, j).Ok? && Listing(remote, j + 1).Ok?
    ensures MovedBetween(Listing(remote, 0).value, limit, Listing(remote, j).value, Listing(remote, j + 1).value)
  {
    hide RevisionChanged, MovedBetween, ScopeOf, Listing;
    var cached, listing := ReadRoot(disk).value, Listing(remote, 0).value;
    var scope := ScopeOf(listing, limit);
    RoundsMoved(Stager(cached, scope, remote), Lister(remote), scope, map[], listing, 0, j);
    ChangedIffMoved(listing, limit, Listing(remote, j).value, Listing(remote, j + 1).value);
  }

  /** The remote does not answer this listing, or it answers one that is refused. */
  ghost predicate ListingFails(remote: Remote, k: nat) {
    remote.listing(k).Error? ||
    (var items := remote.listing(k).value;
     || (exists i :: 0 <= i < |items| && items[i].number <= 0)
     || exists i, j :: 0 <= i < j < |items| && items[i].number == items[j].number)
  }

  lemma ListingFailsIff(remote: Remote, k: nat)
    ensures Listing(remote, k).Error? <==> ListingFails(remote, k)
    ensures Listing(remote, k).Ok? ==> Listing(remote, k) == remote.listing(k)
  {}

  /** A download of a number in scope fails in this round. */
  ghost predicate DownloadFails(first: seq<Item>, limit: nat, remote: Remote, k: nat) {
    exists n :: AmongFirst(first, limit, n) && remote.files(k, n).Error?
  }

  lemma StageErrors(staged: Staged, cached: Directory, listing: seq<Item>, first: seq<Item>, limit: nat, k: nat,
                    remote: Remote)
    requires Stage(staged, cached, listing, ScopeOf(first, limit), k, remote).Error?
    ensures DownloadFails(first, limit, remote, k)
  {
    hide ScopeOf, AmongFirst, CachedFiles, Find;
    var scope := ScopeOf(first, limit);
    ScopeIsFirst(first, limit);
    var n :| n in ListedNumbers(listing) && StagedAs(staged, cached, listing, scope, k, remote, n).Error?;
    assert InScope(scope, n) && remote.files(k, n).Error?;
  }

  lemma {:induction false} RoundsError(cached: Directory, first: seq<Item>, limit: nat, remote: Remote, staged: Staged,
                                       listing: seq<Item>, k: nat)
    returns (r: nat)
    requires k <= MAX_RECONCILIATION_ROUNDS
    requires var scope := ScopeOf(first, limit);
             Rounds(Stager(cached, scope, remote), Lister(remote), scope, staged, listing, k).Error?
    ensures r <= MAX_RECONCILIATION_ROUNDS && (ListingFails(remote, r + 1) || DownloadFails(first, limit, remote, r))
    decreases MAX_RECONCILIATION_ROUNDS - k
  {
    hide ScopeOf, RevisionChanged, Stage, ListingFails, DownloadFails;
    var scope := ScopeOf(first, limit);
    var next := Stager(cached, scope, remote)(staged, listing, k);
    ListingFailsIff(remote, k + 1);
    if next.Error? {
      StageErrors(staged, cached, listing, first, limit, k, remote);
      r := k;
    } else if Listing(remote, k + 1).Error? {
      r := k;
    } else {
      r := RoundsError(cached, first, limit, remote, next.value, Listing(remote, k + 1).value, k + 1);
    }
  }

  /**
   A refresh ends without a snapshot only when the active one cannot be read, a listing of one of the
   rounds fails, or a download that is in scope does.
   */
  lemma RefreshFailsOnlyOnFailure(disk: Disk, limit: nat, remote: Remote) returns (k: nat)
    requires Reconcile(disk, limit, remote).Error?
    ensures || Resolve(disk).Error? || ListingFails(remote, 0)
            || (k <= MAX_RECONCILIATION_ROUNDS
                && (ListingFails(remote, k + 1) || DownloadFails(Listing(remote, 0).value, limit, remote, k)))
  {
    hide ScopeOf, RevisionChanged, Stage, ListingFails, DownloadFails, Rounds, Listing, Resolve;
    ListingFailsIff(remote, 0);
    k := 0;
    if Resolve(disk).Ok? && Listing(remote, 0).Ok? {
      var listing := Listing(remote, 0).value;
      k := RoundsError(ReadRoot(disk).value, listing, limit, remote, map[], listing, 0);
    }
  }
}
