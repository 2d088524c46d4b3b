/**
 The refresh of triage/gh.py as the code performs it: one write after another, file
 downloads by a pool of workers in no particular order, and `active.json` replaced last.
 It refines `Snapshots.Refresh`, and stopping after any write leaves a state that
 `SnapshotTruth` already covers.
 */
module SnapshotCache {
  import opened Order
  import opened Models
  import opened Snapshots
  import opened SnapshotTruth

  /** One durable write of a refresh; all but the last go to the new snapshot directory. */
  datatype Write =
    | SaveFile(number: int, files: Files)
    | DropFile(number: int)
    | SavePulls(listing: seq<Item>)
    | SaveMeta(meta: Meta)
    | SetActive(meta: Meta)

  function DirectoryOf(disk: Disk, id: string): Directory {
    if id in disk.dirs then disk.dirs[id] else EMPTY
  }

  function Apply(disk: Disk, id: string, w: Write): Disk {
    var dir := DirectoryOf(disk, id);
    match w
    case SaveFile(n, files) => disk.(dirs := disk.dirs[id := dir.(files := dir.files[n := files])])
    case DropFile(n) => disk.(dirs := disk.dirs[id := dir.(files := dir.files - {n})])
    case SavePulls(listing) => disk.(dirs := disk.dirs[id := dir.(pulls := Some(listing))])
    case SaveMeta(meta) => disk.(dirs := disk.dirs[id := dir.(meta := Some(meta))])
    case SetActive(meta) => disk.(active := Some(meta))
  }

  ghost function ApplyAll(disk: Disk, id: string, ws: seq<Write>): Disk {
    if ws == [] then disk else Apply(ApplyAll(disk, id, ws[..|ws| - 1]), id, ws[|ws| - 1])
  }

  /** Writes that only fill the new directory. */
  ghost predicate Filling(ws: seq<Write>) {
    forall i | 0 <= i < |ws| :: !ws[i].SaveMeta? && !ws[i].SetActive?
  }

  lemma {:induction false} FillingKeepsRest(disk: Disk, id: string, ws: seq<Write>)
    requires Filling(ws)
    ensures var d := ApplyAll(disk, id, ws);
            && d.active == disk.active
            && (forall other | other != id :: other in d.dirs <==> other in disk.dirs)
            && (forall other | other != id && other in disk.dirs :: d.dirs[other] == disk.dirs[other])
            && DirectoryOf(d, id).meta == DirectoryOf(disk, id).meta
  {
    if ws != [] { FillingKeepsRest(disk, id, ws[..|ws| - 1]); }
  }

  lemma ApplyAllAppend(disk: Disk, id: string, ws: seq<Write>, w: Write)
    ensures ApplyAll(disk, id, ws + [w]) == Apply(ApplyAll(disk, id, ws), id, w)
  {
    assert (ws + [w])[..|ws|] == ws;
  }

  lemma OneDirectoryChanged(disk: Disk, d: Disk, id: string)
    requires id !in disk.dirs && d.active == disk.active && Resolve(disk).Ok?
    requires forall other | other != id :: other in d.dirs <==> other in disk.dirs
    requires forall other | other != id && other in disk.dirs :: d.dirs[other] == disk.dirs[other]
    ensures Resolve(d) == Resolve(disk)
    ensures if id in d.dirs then d == disk.(dirs := disk.dirs[id := d.dirs[id]]) else d == disk
  {
    assert id in d.dirs ==> d.dirs == disk.dirs[id := d.dirs[id]];
    assert id !in d.dirs ==> d.dirs == disk.dirs;
  }

  lemma StopWhileFilling(disk: Disk, limit: nat, id: string, remote: Remote, clock: Clock, ws: seq<Write>)
    requires id !in disk.dirs && Resolve(disk).Ok? && Filling(ws)
    ensures var d := ApplyAll(disk, id, ws);
            && Resolve(d) == Resolve(disk)
            && (d == disk || var a := Attempt(limit, id, remote, clock, Stopped(DirectoryOf(d, id)));
                             Possible(disk, a) && d == After(disk, a))
  {
    FillingKeepsRest(disk, id, ws);
    OneDirectoryChanged(disk, ApplyAll(disk, id, ws), id);
  }

  lemma StopBeforeSwap(disk: Disk, id: string, ws: seq<Write>, meta: Meta, final: Directory)
    requires id !in disk.dirs && Resolve(disk).Ok? && Filling(ws)
    requires Apply(Apply(ApplyAll(disk, id, ws), id, SaveMeta(meta)), id, SetActive(meta)) ==
               Disk(disk.dirs[id := final], final.meta)
    ensures var d := Apply(ApplyAll(disk, id, ws), id, SaveMeta(meta));
            Resolve(d) == Resolve(disk) && d == disk.(dirs := disk.dirs[id := final]) && DirectoryOf(d, id) == final
  {
    var d := Apply(ApplyAll(disk, id, ws), id, SaveMeta(meta));
    FillingKeepsRest(disk, id, ws);
    assert d.dirs == disk.dirs[id := final];
    OneDirectoryChanged(disk, d, id);
  }

  /**
   Stopping a successful refresh before its last write is a possible stopped attempt:
   `active.json` still resolves as before, every other directory is untouched, and the new
   directory has no manifest or is already the complete one.
   */
  lemma CrashIsPossibleStop(disk: Disk, limit: nat, id: string, remote: Remote, clock: Clock, ws: seq<Write>,
                            meta: Meta, k: nat)
    requires id !in disk.dirs && Resolve(disk).Ok? && Filling(ws) && Reconcile(disk, limit, remote).Ok?
    requires ApplyAll(disk, id, ws + [SaveMeta(meta), SetActive(meta)]) == Refresh(disk, limit, id, remote)
    requires k < |ws| + 2
    ensures var stopped := ApplyAll(disk, id, (ws + [SaveMeta(meta), SetActive(meta)])[..k]);
            && Resolve(stopped) == Resolve(disk)
            && (stopped == disk
                || var a := Attempt(limit, id, remote, clock, Stopped(DirectoryOf(stopped, id)));
                   Possible(disk, a) && stopped == After(disk, a))
  {
    hide Reconcile, Resolve, ApplyAll;
    var all := ws + [SaveMeta(meta), SetActive(meta)];
    if k <= |ws| {
      assert all[..k] == ws[..k];
      StopWhileFilling(disk, limit, id, remote, clock, ws[..k]);
    } else {
      assert all[..k] == ws + [SaveMeta(meta)] && all == ws + [SaveMeta(meta)] + [SetActive(meta)];
      ApplyAllAppend(disk, id, ws, SaveMeta(meta));
      ApplyAllAppend(disk, id, ws + [SaveMeta(meta)], SetActive(meta));
      StopBeforeSwap(disk, id, ws, meta, Materialize(Reconcile(disk, limit, remote).value, id, NextGeneration(disk)));
    }
  }

  // ---- the code ----

  /** What staging one item makes of the staged map. */
  function Restaged(staged: Staged, n: int, outcome: Answer<Option<Evidence>>): Answer<Staged> {
    match outcome
    case Error => Error
    case Ok(Some(e)) => Ok(staged[n := e])
    case Ok(None) => Ok(staged - {n})
  }

  /** A staging step after the numbers of `done`. */
  ghost predicate PartlyStaged(staged: Staged, cached: Directory, listing: seq<Item>, scope: Scope, round: nat,
                               remote: Remote,
                               done: set<int>, current: Staged)
  {
    && current == Overlay(staged, Outcomes(staged, cached, listing, scope, round, remote), done)
    && done <= ListedNumbers(listing)
    && forall n | n in done :: StagedAs(staged, cached, listing, scope, round, remote, n).Ok?
  }

  lemma NothingStaged(staged: Staged, cached: Directory, listing: seq<Item>, scope: Scope, round: nat, remote: Remote)
    ensures PartlyStaged(staged, cached, listing, scope, round, remote, {}, staged)
  {}

  /** One more number, whatever was staged before it. */
  lemma StagedOneMore(staged: Staged, cached: Directory, listing: seq<Item>, scope: Scope, round: nat, remote: Remote,
                      done: set<int>, current: Staged, item: Item)
    requires ValidListing(listing) && item in listing && item.number !in done
    requires PartlyStaged(staged, cached, listing, scope, round, remote, done, current)
    ensures var r := Restaged(current, item.number, StageItem(current, cached, item, scope, round, remote));
            if r.Ok? then PartlyStaged(staged, cached, listing, scope, round, remote, done + {item.number}, r.value)
            else StageFails(staged, cached, listing, scope, round, remote)
  {
    hide ValidListing;
    var n := item.number;
    FindIs(listing, item);
    assert n in ListedNumbers(listing);
    OverlayStep(staged, Outcomes(staged, cached, listing, scope, round, remote), done, n);
    SameStagedEntry(staged, current, cached, item, scope, round, remote);
    assert StageItem(current, cached, item, scope, round, remote) ==
             StagedAs(staged, cached, listing, scope, round, remote, n);
  }

  lemma SameStagedEntry(a: Staged, b: Staged, cached: Directory, item: Item, scope: Scope, round: nat, remote: Remote)
    requires item.number in a <==> item.number in b
    requires item.number in a ==> a[item.number] == b[item.number]
    ensures StageItem(a, cached, item, scope, round, remote) == StageItem(b, cached, item, scope, round, remote)
  {}

  lemma AllStaged(staged: Staged, cached: Directory, listing: seq<Item>, scope: Scope, round: nat, remote: Remote,
                  done: set<int>, current: Staged)
    requires PartlyStaged(staged, cached, listing, scope, round, remote, done, current)
             && done == ListedNumbers(listing)
    ensures Stage(staged, cached, listing, scope, round, remote) == Ok(current)
  {
    hide StagedAs, Overlay;
  }

  lemma SomeFailed(staged: Staged, cached: Directory, listing: seq<Item>, scope: Scope, round: nat, remote: Remote)
    requires StageFails(staged, cached, listing, scope, round, remote)
    ensures Stage(staged, cached, listing, scope, round, remote) == Error
  {
    hide StageFails;
  }

  /** File requests: each (round, number) at most once, by round, and only in scope. */
  ghost predicate Bounded(fetches: multiset<(nat, int)>, scope: Scope, round: nat, done: set<int>) {
    forall r: nat, n: int | (r, n) in fetches ::
      fetches[(r, n)] == 1 && InScope(scope, n) && (r < round || (r == round && n in done))
  }

  lemma RoundOver(fetches: multiset<(nat, int)>, scope: Scope, round: nat, done: set<int>)
    requires Bounded(fetches, scope, round, done)
    ensures Bounded(fetches, scope, round + 1, {})
  {
    forall r: nat, n: int | (r, n) in fetches
      ensures fetches[(r, n)] == 1 && InScope(scope, n) && r < round + 1
    {}
  }

  ghost predicate StepOk(states: seq<Disk>, id: string, ws: seq<Write>, i: nat)
    requires i < |ws| < |states|
  {
    states[i + 1] == Apply(states[i], id, ws[i])
  }

  /** `states` are the disks before the first and after each of the writes. */
  ghost predicate Traced(start: Disk, id: string, ws: seq<Write>, states: seq<Disk>) {
    && |states| == |ws| + 1 && states[0] == start
    && forall i: nat {:trigger StepOk(states, id, ws, i)} | i < |ws| :: StepOk(states, id, ws, i)
  }

  lemma TracedAppend(start: Disk, id: string, ws: seq<Write>, states: seq<Disk>, w: Write)
    requires Traced(start, id, ws, states)
    ensures Traced(start, id, ws + [w], states + [Apply(states[|states| - 1], id, w)])
  {
    var states' := states + [Apply(states[|states| - 1], id, w)];
    forall i: nat | i < |ws + [w]|
      ensures StepOk(states', id, ws + [w], i)
    {
      if i < |ws| { assert StepOk(states, id, ws, i); }
    }
  }

  lemma {:induction false} TracedIsApplyAll(start: Disk, id: string, ws: seq<Write>, states: seq<Disk>)
    requires Traced(start, id, ws, states)
    ensures ApplyAll(start, id, ws) == states[|states| - 1]
  {
    if ws != [] {
      var n := |ws| - 1;
      forall i: nat {:trigger StepOk(states[..n + 1], id, ws[..n], i)} | i < n
        ensures StepOk(states[..n + 1], id, ws[..n], i)
      {
        assert StepOk(states, id, ws, i);
      }
      TracedIsApplyAll(start, id, ws[..n], states[..n + 1]);
      assert StepOk(states, id, ws, n);
    }
  }

  ghost function ManifestOf(s: Settled, numbers: set<int>): map<int, Revision> {
    map n | n in numbers && Usable(s, n) :: Find(s.listing, n).value.revision.value
  }

  ghost function Manifest(s: Settled): map<int, Revision> { ManifestOf(s, UsableNumbers(s)) }

  /** The directory has the staged bytes of every usable number. */
  ghost predicate HoldsUsable(dir: Directory, s: Settled) {
    forall n | n in UsableNumbers(s) :: n in dir.files && dir.files[n] == s.staged[n].files
  }

  lemma ManifestStep(s: Settled, i: nat)
    requires ValidListing(s.listing) && i < |s.listing|
    ensures var n := s.listing[i].number;
            var before, after := ManifestOf(s, ListedNumbers(s.listing[..i])),
              ManifestOf(s, ListedNumbers(s.listing[..i + 1]));
            if Usable(s, n) then s.listing[i].revision.Some? && after == before[n := s.listing[i].revision.value]
            else after == before
  {
    hide ValidListing, Usable, Find;
    ListedStep(s.listing, i);
    FindIs(s.listing, s.listing[i]);
    UsableIsKnown(s, s.listing[i].number);
  }

  lemma UsableIsKnown(s: Settled, n: int)
    ensures Usable(s, n) ==> n in s.staged && Find(s.listing, n).Some? && Find(s.listing, n).value.revision.Some?
  {}

  lemma WholeManifest(s: Settled)
    ensures ManifestOf(s, ListedNumbers(s.listing)) == Manifest(s)
  {
    forall n | Usable(s, n)
      ensures n in ListedNumbers(s.listing) && n in UsableNumbers(s)
    {
      UsableIsKnown(s, n);
    }
  }

  lemma DropKeepsUsable(dir: Directory, s: Settled, n: int)
    requires HoldsUsable(dir, s) && !Usable(s, n)
    ensures HoldsUsable(dir.(files := dir.files - {n}), s)
  {
    hide Usable;
  }

  /** Dropping the files without a manifest entry leaves what `Materialize` describes. */
  lemma FilledIsMaterialized(filled: Directory, dropped: Directory, s: Settled, id: string, generation: int)
    requires filled.pulls == Some(s.listing) && HoldsUsable(filled, s)
    requires dropped == filled.(files := map n | n in filled.files && n in Manifest(s).Keys :: filled.files[n])
    ensures dropped.(meta := Some(Meta(id, generation, Manifest(s)))) == Materialize(s, id, generation)
  {
    hide Find;
    assert Manifest(s).Keys == UsableNumbers(s);
    assert Materialize(s, id, generation).files == dropped.files;
    assert Materialize(s, id, generation).meta.value.revisions == Manifest(s);
  }

  method AnyOf(s: set<int>) returns (n: int)
    requires s != {}
    ensures n in s
  {
    n := SortedInts(s)[0];
  }

  class Cache {
    var disk: Disk
    ghost var writes: seq<Write>
    ghost var states: seq<Disk>
    ghost var fetches: multiset<(nat, int)>
    ghost var listings: nat

    constructor (disk: Disk)
      ensures this.disk == disk
    {
      this.disk := disk;
      writes, states, fetches, listings := [], [disk], multiset{}, 0;
    }

    /** So far the refresh has only filled directory `id` of `start`. */
    ghost predicate FillingOf(start: Disk, id: string)
      reads this
    {
      Traced(start, id, writes, states) && states[|states| - 1] == disk && Filling(writes)
    }

    /** Every staged entry lies in the directory with the same bytes. */
    ghost predicate Mirrors(id: string, staged: Staged)
      reads this
    {
      forall n | n in staged :: n in DirectoryOf(disk, id).files && DirectoryOf(disk, id).files[n] == staged[n].files
    }

    method Perform(ghost start: Disk, id: string, w: Write)
      requires FillingOf(start, id) && !w.SaveMeta? && !w.SetActive?
      modifies this`disk, this`writes, this`states
      ensures FillingOf(start, id) && disk == Apply(old(disk), id, w)
    {
      TracedAppend(start, id, writes, states, w);
      disk := Apply(disk, id, w);
      writes, states := writes + [w], states + [disk];
    }

    method RequestFiles(remote: Remote, round: nat, n: int) returns (answer: Answer<Files>)
      modifies this`fetches
      ensures answer == remote.files(round, n) && fetches == old(fetches) + multiset{(round, n)}
    {
      answer := remote.files(round, n);
      fetches := fetches + multiset{(round, n)};
    }

    method RequestListing(remote: Remote, k: nat) returns (answer: Answer<seq<Item>>)
      modifies this`listings
      ensures answer == Listing(remote, k) && listings == old(listings) + 1
    {
      answer := Listing(remote, k);
      listings := listings + 1;
    }

    /** One worker: reuse staged or cached evidence of the same pair, otherwise download it. */
    method StageOne(ghost start: Disk, id: string, staged: Staged, cached: Directory, item: Item, scope: Scope,
                    round: nat, remote: Remote, ghost done: set<int>)
      returns (r: Answer<Staged>)
      requires FillingOf(start, id) && Mirrors(id, staged) && InScope(scope, item.number)
      requires Bounded(fetches, scope, round, done) && item.number !in done
      modifies this`disk, this`writes, this`states, this`fetches
      ensures FillingOf(start, id) && Bounded(fetches, scope, round, done + {item.number})
      ensures r == Restaged(staged, item.number, StageItem(staged, cached, item, scope, round, remote))
      ensures Mirrors(id, if r.Ok? then r.value else staged - {item.number})
    {
      hide Traced, StepOk, Filling, CachedFiles, SamePair;
      var n := item.number;
      if item.revision.None? {
        return Ok(staged - {n});
      }
      var revision := item.revision.value;
      if n in staged && SamePair(staged[n].revision, revision) {
        assert staged == staged[n := staged[n]];
        r := Ok(staged);
      } else {
        var files := CachedFiles(cached, n, revision);
        if files.None? {
          var answer := RequestFiles(remote, round, n);
          if answer.Error? {
            return Error;
          }
          files := Some(answer.value);
        }
        r := Ok(staged[n := Evidence(revision, files.value)]);
      }
      Perform(start, id, SaveFile(n, r.value[n].files));
    }

    /** Outside the file cap: reuse evidence of the exact pair, never download. */
    method StageOutside(ghost start: Disk, id: string, staged: Staged, cached: Directory, item: Item, scope: Scope,
                        round: nat, remote: Remote)
      returns (staged': Staged)
      requires FillingOf(start, id) && Mirrors(id, staged) && !InScope(scope, item.number)
      modifies this`disk, this`writes, this`states
      ensures FillingOf(start, id) && Mirrors(id, staged')
      ensures Ok(staged') == Restaged(staged, item.number, StageItem(staged, cached, item, scope, round, remote))
    {
      hide Traced, StepOk, Filling, CachedFiles, SamePair;
      var n := item.number;
      if item.revision.None? {
        return staged - {n};
      }
      var revision := item.revision.value;
      if n in staged && SamePair(staged[n].revision, revision) {
        assert staged == staged[n := staged[n]];
        return staged;
      }
      staged' := staged - {n};
      var files := CachedFiles(cached, n, revision);
      if files.Some? {
        assert staged'[n := Evidence(revision, files.value)] == staged[n := Evidence(revision, files.value)];
        staged' := staged'[n := Evidence(revision, files.value)];
        Perform(start, id, SaveFile(n, files.value));
      }
    }

    /**
     The worker pool: in-scope items in any order, as the choice of `item` is left open. A failed
     worker does not stop the others; the failure is raised once all of them are through.
     */
    method StageScoped(ghost start: Disk, id: string, staged: Staged, cached: Directory, listing: seq<Item>,
                       scope: Scope,
                       round: nat, remote: Remote)
      returns (r: Answer<Staged>)
      requires FillingOf(start, id) && Mirrors(id, staged) && ValidListing(listing)
               && Bounded(fetches, scope, round, {})
      modifies this`disk, this`writes, this`states, this`fetches
      ensures FillingOf(start, id) && Bounded(fetches, scope, round, ScopedNumbers(listing, scope))
      ensures r.Ok? ==> Mirrors(id, r.value)
      ensures r.Ok? ==> PartlyStaged(staged, cached, listing, scope, round, remote, ScopedNumbers(listing, scope),
                                     r.value)
      ensures r.Error? ==> StageFails(staged, cached, listing, scope, round, remote)
    {
      hide Traced, StepOk, Filling, PartlyStaged, StageItem, Restaged, Bounded, StageFails, FillingOf, Mirrors;
      var todo := set item | item in listing && InScope(scope, item.number);
      var current, failed := staged, false;
      ghost var done := {};
      NothingStaged(staged, cached, listing, scope, round, remote);
      while todo != {}
        invariant FillingOf(start, id) && Mirrors(id, current) && Bounded(fetches, scope, round, done)
        invariant forall item | item in todo :: item in listing && InScope(scope, item.number) && item.number !in done
        invariant forall item | item in listing && InScope(scope, item.number) :: item in todo || item.number in done
        invariant done <= ScopedNumbers(listing, scope)
        invariant if failed then StageFails(staged, cached, listing, scope, round, remote)
                  else PartlyStaged(staged, cached, listing, scope, round, remote, done, current)
        decreases todo
      {
        var item: Item :| item in todo;
        if !failed {
          StagedOneMore(staged, cached, listing, scope, round, remote, done, current, item);
        }
        r := StageOne(start, id, current, cached, item, scope, round, remote, done);
        OnlyItemOfNumber(listing, item);
        todo := todo - {item};
        done := done + {item.number};
        failed := failed || r.Error?;
        current := if r.Ok? then r.value else current - {item.number};
      }
      assert done == ScopedNumbers(listing, scope);
      r := if failed then Error else Ok(current);
    }

    /** `stage_listing`. */
    method StageListing(ghost start: Disk, id: string, staged: Staged, cached: Directory, listing: seq<Item>,
                        scope: Scope,
                        round: nat, remote: Remote)
      returns (r: Answer<Staged>)
      requires FillingOf(start, id) && Mirrors(id, staged) && ValidListing(listing)
               && Bounded(fetches, scope, round, {})
      modifies this`disk, this`writes, this`states, this`fetches
      ensures FillingOf(start, id) && Bounded(fetches, scope, round + 1, {})
      ensures r == Stage(staged, cached, listing, scope, round, remote)
      ensures r.Ok? ==> Mirrors(id, r.value)
    {
      hide Traced, StepOk, Filling, PartlyStaged, StageItem, Restaged, Bounded, StageFails, Stage, ValidListing,
           FillingOf, Mirrors;
      r := StageScoped(start, id, staged, cached, listing, scope, round, remote);
      ghost var done := ScopedNumbers(listing, scope);
      RoundOver(fetches, scope, round, done);
      if r.Error? {
        SomeFailed(staged, cached, listing, scope, round, remote);
        return;
      }
      var current := r.value;
      for i := 0 to |listing|
        invariant FillingOf(start, id) && Mirrors(id, current) && Bounded(fetches, scope, round + 1, {})
        invariant done == ScopedNumbers(listing, scope) + ListedNumbers(listing[..i])
        invariant PartlyStaged(staged, cached, listing, scope, round, remote, done, current)
      {
        ListedStep(listing, i);
        if !InScope(scope, listing[i].number) {
          StagedOneMore(staged, cached, listing, scope, round, remote, done, current, listing[i]);
          current := StageOutside(start, id, current, cached, listing[i], scope, round, remote);
          done := done + {listing[i].number};
        }
      }
      assert listing[..|listing|] == listing;
      AllStaged(staged, cached, listing, scope, round, remote, done, current);
      r := Ok(current);
    }

    /** The bounded rounds: stage, list again, stop when the confirming listing did not move. */
    method RunRounds(ghost start: Disk, id: string, cached: Directory, first: seq<Item>, scope: Scope, remote: Remote)
      returns (r: Answer<Settled>)
      requires FillingOf(start, id) && ValidListing(first) && fetches == multiset{} && listings == 1
      modifies this
      ensures FillingOf(start, id) && Bounded(fetches, scope, MAX_RECONCILIATION_ROUNDS + 1, {})
      ensures listings <= MAX_RECONCILIATION_ROUNDS + 2
      ensures r == Rounds(Stager(cached, scope, remote), Lister(remote), scope, map[], first, 0)
      ensures r.Ok? ==> Mirrors(id, r.value.staged) && ValidListing(r.value.listing)
    {
      hide Traced, StepOk, Filling, Stage, ValidListing, RevisionChanged, Listing;
      ghost var stage, list := Stager(cached, scope, remote), Lister(remote);
      var staged: Staged := map[];
      var current := first;
      for round := 0 to MAX_RECONCILIATION_ROUNDS + 1
        invariant FillingOf(start, id) && Mirrors(id, staged) && ValidListing(current)
        invariant Bounded(fetches, scope, round, {}) && listings == round + 1
        invariant round <= MAX_RECONCILIATION_ROUNDS
        invariant Rounds(stage, list, scope, map[], first, 0) == Rounds(stage, list, scope, staged, current, round)
      {
        var result := StageListing(start, id, staged, cached, current, scope, round, remote);
        BoundedLater(fetches, scope, round + 1, MAX_RECONCILIATION_ROUNDS + 1);
        if result.Error? {
          return Error;
        }
        staged := result.value;
        var confirmed := RequestListing(remote, round + 1);
        if confirmed.Error? {
          return Error;
        }
        if !RevisionChanged(current, confirmed.value, scope) || round >= MAX_RECONCILIATION_ROUNDS {
          return Ok(Settled(round, staged, confirmed.value));
        }
        current := confirmed.value;
      }
      assert false;
    }

    /** Walks the final listing: a manifest entry for usable evidence, no file for the rest. */
    method CollectUsable(ghost start: Disk, id: string, s: Settled) returns (revisions: map<int, Revision>)
      requires FillingOf(start, id) && id in disk.dirs && Mirrors(id, s.staged) && ValidListing(s.listing)
      modifies this`disk, this`writes, this`states
      ensures FillingOf(start, id) && id in disk.dirs && DirectoryOf(disk, id).pulls == old(DirectoryOf(disk, id)).pulls
      ensures revisions == Manifest(s) && HoldsUsable(DirectoryOf(disk, id), s)
    {
      hide Traced, StepOk, Filling, ValidListing, FillingOf, Usable;
      revisions := map[];
      assert HoldsUsable(DirectoryOf(disk, id), s);
      for i := 0 to |s.listing|
        invariant FillingOf(start, id) && id in disk.dirs
                  && DirectoryOf(disk, id).pulls == old(DirectoryOf(disk, id)).pulls
        invariant revisions == ManifestOf(s, ListedNumbers(s.listing[..i])) && HoldsUsable(DirectoryOf(disk, id), s)
      {
        var item := s.listing[i];
        ManifestStep(s, i);
        if Usable(s, item.number) {
          revisions := revisions[item.number := item.revision.value];
        } else {
          DropKeepsUsable(DirectoryOf(disk, id), s, item.number);
          Perform(start, id, DropFile(item.number));
        }
      }
      assert s.listing[..|s.listing|] == s.listing;
      WholeManifest(s);
    }

    /** Publishes against the final listing: drop what is not usable, then manifest, then `active.json`. */
    method Publish(ghost start: Disk, id: string, s: Settled)
      requires FillingOf(start, id) && Mirrors(id, s.staged) && ValidListing(s.listing)
      modifies this`disk, this`writes, this`states
      ensures var dir := Materialize(s, id, NextGeneration(start));
              && disk == Disk(start.dirs[id := dir], dir.meta)
              && |writes| >= 2 && Filling(writes[..|writes| - 2])
              && writes[|writes| - 2..] == [SaveMeta(dir.meta.value), SetActive(dir.meta.value)]
              && disk == ApplyAll(start, id, writes)
    {
      hide Traced, StepOk, Filling, Find, ValidListing, ApplyAll;
      Perform(start, id, SavePulls(s.listing));
      var revisions := CollectUsable(start, id, s);
      ghost var filled := DirectoryOf(disk, id);
      DropUnlisted(start, id, revisions.Keys);
      TracedIsApplyAll(start, id, writes, states);
      FillingKeepsRest(start, id, writes);
      var meta := Meta(id, NextGeneration(disk), revisions);
      FilledIsMaterialized(filled, DirectoryOf(disk, id), s, id, NextGeneration(start));
      Swap(start, id, meta);
    }

    method Swap(ghost start: Disk, id: string, meta: Meta)
      requires FillingOf(start, id) && id in disk.dirs
      modifies this`disk, this`writes, this`states
      ensures disk == Disk(start.dirs[id := old(disk.dirs[id]).(meta := Some(meta))], Some(meta))
      ensures |writes| >= 2 && Filling(writes[..|writes| - 2])
      ensures writes[|writes| - 2..] == [SaveMeta(meta), SetActive(meta)] && disk == ApplyAll(start, id, writes)
    {
      ghost var filled := writes;
      TracedIsApplyAll(start, id, writes, states);
      FillingKeepsRest(start, id, writes);
      assert disk.dirs == start.dirs[id := disk.dirs[id]];
      ApplyAllAppend(start, id, writes, SaveMeta(meta));
      ApplyAllAppend(start, id, writes + [SaveMeta(meta)], SetActive(meta));
      disk := Apply(disk, id, SaveMeta(meta));
      disk := Apply(disk, id, SetActive(meta));
      writes := writes + [SaveMeta(meta)] + [SetActive(meta)];
      assert writes[..|writes| - 2] == filled;
    }

    /** Removes every file without a manifest entry. */
    method DropUnlisted(ghost start: Disk, id: string, listed: set<int>)
      requires FillingOf(start, id) && id in disk.dirs
      modifies this`disk, this`writes, this`states
      ensures FillingOf(start, id) && id in disk.dirs
      ensures DirectoryOf(disk, id) ==
                old(DirectoryOf(disk, id)).(files := map n | n in old(DirectoryOf(disk, id)).files && n in listed
                                                       :: old(DirectoryOf(disk, id)).files[n])
    {
      hide Traced, StepOk, Filling, FillingOf;
      var todo: set<int> := disk.dirs[id].files.Keys - listed;
      ghost var before := DirectoryOf(disk, id);
      while todo != {}
        invariant FillingOf(start, id) && id in disk.dirs && todo <= before.files.Keys - listed
        invariant DirectoryOf(disk, id) ==
                    before.(files := map n | n in before.files && (n in listed || n in todo) :: before.files[n])
        decreases todo
      {
        var n := AnyOf(todo);
        Perform(start, id, DropFile(n));
        todo := todo - {n};
      }
    }

    /** A whole refresh. On failure only the unpublished directory was touched. */
    method RefreshSnapshot(limit: nat, id: string, remote: Remote) returns (ok: bool)
      requires id !in disk.dirs
      modifies this
      ensures listings <= 4 && forall r: nat, n: int | (r, n) in fetches :: fetches[(r, n)] == 1 && r < 3
      ensures limit > 0 ==> |Requested(fetches)| <= limit
      ensures limit > 0 ==> forall n | n in Requested(fetches) ::
                              Listing(remote, 0).Ok? && AmongFirst(Listing(remote, 0).value, limit, n)
      ensures ok == Reconcile(old(disk), limit, remote).Ok?
      ensures ok ==> disk == Refresh(old(disk), limit, id, remote)
      ensures disk == ApplyAll(old(disk), id, writes)
      ensures if ok then |writes| >= 2 && Filling(writes[..|writes| - 2])
                         && exists meta :: writes[|writes| - 2..] == [SaveMeta(meta), SetActive(meta)]
              else Filling(writes)
    {
      hide StepOk, Rounds, ValidListing, Materialize;
      ghost var start := disk;
      writes, states, fetches, listings := [], [disk], multiset{}, 0;
      var root := ReadRoot(disk);
      if root.Error? {
        return false;
      }
      var first := RequestListing(remote, 0);
      if first.Error? {
        return false;
      }
      var scope := ScopeOf(first.value, limit);
      var settled := RunRounds(start, id, root.value, first.value, scope, remote);
      if settled.Error? {
        TracedIsApplyAll(start, id, writes, states);
        RequestsAreFirst(fetches, first.value, limit);
        return false;
      }
      RequestsAreFirst(fetches, first.value, limit);
      Publish(start, id, settled.value);
      ok := true;
    }
  }

  /** The numbers whose files were requested. */
  ghost function Requested(fetches: multiset<(nat, int)>): set<int> { set p | p in fetches :: p.1 }

  /** Requests within the scope of a limit are for its first numbers, each at most once a round. */
  lemma RequestsAreFirst(fetches: multiset<(nat, int)>, listing: seq<Item>, limit: nat)
    requires Bounded(fetches, ScopeOf(listing, limit), 3, {})
    ensures forall r: nat, n: int | (r, n) in fetches :: fetches[(r, n)] == 1 && r < 3
    ensures limit > 0 ==>
              |Requested(fetches)| <= limit && forall n | n in Requested(fetches) :: AmongFirst(listing, limit, n)
  {
    hide ScopeOf, AmongFirst;
    ScopeIsFirst(listing, limit);
    forall r: nat, n: int | (r, n) in fetches
      ensures fetches[(r, n)] == 1 && r < 3 && InScope(ScopeOf(listing, limit), n)
    {}
    forall n | n in Requested(fetches)
      ensures InScope(ScopeOf(listing, limit), n)
    {
      var p :| p in fetches && p.1 == n;
      assert p == (p.0, p.1);
    }
    if limit > 0 { FewerNumbers(Requested(fetches), ScopeOf(listing, limit).value); }
  }

  lemma {:induction false} FewerNumbers<T>(a: set<T>, b: set<T>)
    requires a <= b
    ensures |a| <= |b|
  {
    if a != {} {
      var x :| x in a;
      FewerNumbers(a - {x}, b - {x});
    }
  }

  function ScopedNumbers(listing: seq<Item>, scope: Scope): set<int> {
    set item | item in listing && InScope(scope, item.number) :: item.number
  }

  lemma ListedStep(listing: seq<Item>, i: nat)
    requires ValidListing(listing) && i < |listing|
    ensures ListedNumbers(listing[..i + 1]) == ListedNumbers(listing[..i]) + {listing[i].number}
    ensures listing[i].number !in ListedNumbers(listing[..i])
    ensures listing[i] in listing
  {
    assert listing[..i + 1] == listing[..i] + [listing[i]];
  }

  lemma BoundedLater(fetches: multiset<(nat, int)>, scope: Scope, round: nat, later: nat)
    requires Bounded(fetches, scope, round, {}) && round <= later
    ensures Bounded(fetches, scope, later, {})
  {
    forall r: nat, n: int | (r, n) in fetches
      ensures fetches[(r, n)] == 1 && InScope(scope, n) && r < later
    {}
  }

  lemma OnlyItemOfNumber(listing: seq<Item>, item: Item)
    requires ValidListing(listing) && item in listing
    ensures forall other | other in listing && other.number == item.number :: other == item
  {
    FindIs(listing, item);
    forall other | other in listing && other.number == item.number ensures other == item { FindIs(listing, other); }
  }
}
