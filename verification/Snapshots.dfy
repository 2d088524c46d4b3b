/**
 The snapshot reconciliation of triage/gh.py as a function of what the remote answers:
 staging, the bounded rounds, and the snapshot that is published.
 */
module Snapshots {
  import opened Models

  datatype Revision = Revision(updatedAt: string, head: string, base: string)

  /** The identity that binds file evidence to a pull request. */
  datatype Pair = Pair(head: string, base: string)

  function PairOf(r: Revision): Pair { Pair(r.head, r.base) }

  /** A listed pull request; the revision is None when the item does not state it completely. */
  datatype Item = Item(number: int, revision: Option<Revision>)

  type Files = seq<string>

  datatype Meta = Meta(snapshotId: string, generation: int, revisions: map<int, Revision>)

  /** One snapshot directory: `pulls.json`, `files/<n>.json` and `fetch-metadata.json`. */
  datatype Directory = Directory(pulls: Option<seq<Item>>, files: map<int, Files>, meta: Option<Meta>)

  const EMPTY := Directory(None, map[], None)

  /** The cache of one repository: its snapshot directories and `active.json`. */
  datatype Disk = Disk(dirs: map<string, Directory>, active: Option<Meta>)

  datatype Answer<+T> = Ok(value: T) | Error

  /** Any remote: the k-th listing, and the files answered for a number in a round. */
  datatype Remote = Remote(listing: nat -> Answer<seq<Item>>, files: (nat, int) -> Answer<Files>)

  datatype Evidence = Evidence(revision: Revision, files: Files)

  type Staged = map<int, Evidence>

  const MAX_RECONCILIATION_ROUNDS: nat := 2

  // ---- listings ----

  function ListedNumbers(listing: seq<Item>): (s: set<int>)
    ensures forall i | 0 <= i < |listing| :: listing[i].number in s
    ensures forall n | n in s :: exists i :: 0 <= i < |listing| && listing[i].number == n
  {
    set item | item in listing :: item.number
  }

  /** Positive, distinct PR numbers; anything else is refused. */
  predicate ValidListing(listing: seq<Item>) {
    && (forall i | 0 <= i < |listing| :: listing[i].number > 0)
    && forall i, j | 0 <= i < j < |listing| :: listing[i].number != listing[j].number
  }

  function Listing(remote: Remote, k: nat): (r: Answer<seq<Item>>)
    ensures r.Ok? ==> ValidListing(r.value)
  {
    match remote.listing(k)
    case Ok(items) => if ValidListing(items) then Ok(items) else Error
    case Error => Error
  }

  function Find(listing: seq<Item>, n: int): (r: Option<Item>)
    ensures r.Some? <==> n in ListedNumbers(listing)
    ensures r.Some? ==> r.value in listing && r.value.number == n
  {
    if listing == [] then None
    else if listing[0].number == n then Some(listing[0])
    else
      var r := Find(listing[1..], n);
      assert forall i | 0 <= i < |listing[1..]| :: listing[1..][i] == listing[i + 1];
      assert n in ListedNumbers(listing) ==> exists i :: 0 <= i < |listing[1..]| && listing[1..][i].number == n by {
        if n in ListedNumbers(listing) {
          var i :| 0 <= i < |listing| && listing[i].number == n;
          assert listing[1..][i - 1].number == n;
        }
      }
      r
  }

  lemma {:induction false} FindIs(listing: seq<Item>, item: Item)
    requires ValidListing(listing) && item in listing
    ensures Find(listing, item.number) == Some(item)
  {
    var i :| 0 <= i < |listing| && listing[i] == item;
    if i > 0 {
      assert listing[0].number != listing[i].number;
      assert listing[1..][i - 1] == item;
      forall a, b | 0 <= a < b < |listing[1..]|
        ensures listing[1..][a].number != listing[1..][b].number
      {
        assert listing[a + 1].number != listing[b + 1].number;
      }
      FindIs(listing[1..], item);
    }
  }

  /** `None` means every number is in scope. */
  type Scope = Option<set<int>>

  predicate InScope(scope: Scope, n: int) { scope.None? || n in scope.value }

  function ScopeOf(listing: seq<Item>, limit: nat): Scope {
    if limit == 0 then None
    else Some(ListedNumbers(if limit < |listing| then listing[..limit] else listing))
  }

  /** The listed number is one of the first `limit`, or there is no limit. */
  ghost predicate AmongFirst(listing: seq<Item>, limit: nat, n: int) {
    limit == 0 || exists i :: 0 <= i < limit && i < |listing| && listing[i].number == n
  }

  /** The file cap takes the first `limit` listed numbers, and no limit takes every number. */
  lemma ScopeIsFirst(listing: seq<Item>, limit: nat)
    ensures forall n :: InScope(ScopeOf(listing, limit), n) <==> AmongFirst(listing, limit, n)
    ensures limit > 0 ==> ScopeOf(listing, limit).Some? && |ScopeOf(listing, limit).value| <= limit
  {
    if limit > 0 {
      var first := if limit < |listing| then listing[..limit] else listing;
      ListedFits(first);
      forall n
        ensures n in ListedNumbers(first) <==> AmongFirst(listing, limit, n)
      {
        if i :| 0 <= i < limit && i < |listing| && listing[i].number == n { assert first[i].number == n; }
        if i :| 0 <= i < |first| && first[i].number == n { assert listing[i].number == n; }
      }
    }
  }

  lemma {:induction false} ListedFits(listing: seq<Item>)
    ensures |ListedNumbers(listing)| <= |listing|
  {
    if listing != [] {
      ListedFits(listing[1..]);
      assert ListedNumbers(listing) == ListedNumbers(listing[1..]) + {listing[0].number};
    }
  }

  // ---- staging ----

  predicate SamePair(a: Revision, b: Revision) { PairOf(a) == PairOf(b) }

  /** `_raw_files_for`: cached files, only when their recorded pair is the wanted one. */
  function CachedFiles(dir: Directory, n: int, revision: Revision): Option<Files> {
    if dir.meta.Some? && n in dir.meta.value.revisions && SamePair(dir.meta.value.revisions[n], revision)
      && n in dir.files
    then Some(dir.files[n]) else None
  }

  /** What staging one item leaves: evidence, no evidence, or a failed download. */
  function StageItem(staged: Staged, cached: Directory, item: Item, scope: Scope, round: nat, remote: Remote)
    : Answer<Option<Evidence>>
  {
    match item.revision
    case None => Ok(None)
    case Some(revision) =>
      if item.number in staged && SamePair(staged[item.number].revision, revision) then Ok(Some(staged[item.number]))
      else match CachedFiles(cached, item.number, revision)
      case Some(files) => Ok(Some(Evidence(revision, files)))
      case None =>
        if !InScope(scope, item.number) then Ok(None)
        else match remote.files(round, item.number)
        case Ok(files) => Ok(Some(Evidence(revision, files)))
        case Error => Error
  }

  /** `old` with the entries of `done` replaced, or removed, by their outcomes. */
  function Overlay<T>(old': map<int, T>, outcome: int -> Option<T>, done: set<int>): map<int, T> {
    map n | n in old'.Keys + done && (n in done ==> outcome(n).Some?) :: if n in done then outcome(n).value else old'[n]
  }

  /** Processing one more number changes its own entry and nothing else. */
  lemma OverlayStep<T>(old': map<int, T>, outcome: int -> Option<T>, done: set<int>, n: int)
    requires n !in done
    ensures n in Overlay(old', outcome, done) <==> n in old'
    ensures n in old' ==> Overlay(old', outcome, done)[n] == old'[n]
    ensures outcome(n).Some? ==>
              Overlay(old', outcome, done + {n}) == Overlay(old', outcome, done)[n := outcome(n).value]
    ensures outcome(n).None? ==> Overlay(old', outcome, done + {n}) == Overlay(old', outcome, done) - {n}
  {}

  function StagedAs(staged: Staged, cached: Directory, listing: seq<Item>, scope: Scope, round: nat, remote: Remote,
                    n: int)
    : Answer<Option<Evidence>>
  {
    match Find(listing, n)
    case Some(item) => StageItem(staged, cached, item, scope, round, remote)
    case None => Ok(None)
  }

  function Outcomes(staged: Staged, cached: Directory, listing: seq<Item>, scope: Scope, round: nat, remote: Remote)
    : int -> Option<Evidence>
  {
    (n: int) => match StagedAs(staged, cached, listing, scope, round, remote, n) case Ok(e) => e case Error => None
  }

  predicate StageFails(staged: Staged, cached: Directory, listing: seq<Item>, scope: Scope, round: nat,
                       remote: Remote) {
    exists n :: n in ListedNumbers(listing) && StagedAs(staged, cached, listing, scope, round, remote, n).Error?
  }

  /** `stage_listing`: each number on its own, so no order of the workers matters. */
  function Stage(staged: Staged, cached: Directory, listing: seq<Item>, scope: Scope, round: nat, remote: Remote)
    : Answer<Staged>
  {
    if StageFails(staged, cached, listing, scope, round, remote) then Error
    else Ok(Overlay(staged, Outcomes(staged, cached, listing, scope, round, remote), ListedNumbers(listing)))
  }

  // ---- rounds ----

  function EvidencePair(item: Item): Option<Pair> {
    if item.revision.Some? then Some(PairOf(item.revision.value)) else None
  }

  /** An in-scope number of the confirming listing is new or moved. */
  predicate RevisionChanged(current: seq<Item>, confirmed: seq<Item>, scope: Scope) {
    exists n :: n in ListedNumbers(confirmed) && InScope(scope, n) && Moved(current, confirmed, n)
  }

  predicate Moved(current: seq<Item>, confirmed: seq<Item>, n: int)
    requires n in ListedNumbers(confirmed)
  {
    Find(current, n).None? || EvidencePair(Find(current, n).value) != EvidencePair(Find(confirmed, n).value)
  }

  /** How reconciliation ends: the last round, what is staged, and the final listing. */
  datatype Settled = Settled(round: nat, staged: Staged, listing: seq<Item>)

  /** Stage, list again, and go on while the confirming listing moved and rounds remain. */
  function Rounds(stage: (Staged, seq<Item>, nat) -> Answer<Staged>, list: nat -> Answer<seq<Item>>, scope: Scope,
                  staged: Staged, listing: seq<Item>, round: nat): Answer<Settled>
    requires round <= MAX_RECONCILIATION_ROUNDS
    decreases MAX_RECONCILIATION_ROUNDS - round
  {
    match stage(staged, listing, round)
    case Error => Error
    case Ok(staged') =>
      match list(round + 1)
      case Error => Error
      case Ok(confirmed) =>
        if !RevisionChanged(listing, confirmed, scope) || round >= MAX_RECONCILIATION_ROUNDS
        then Ok(Settled(round, staged', confirmed))
        else Rounds(stage, list, scope, staged', confirmed, round + 1)
  }

  function Stager(cached: Directory, scope: Scope, remote: Remote): (Staged, seq<Item>, nat) -> Answer<Staged> {
    (staged: Staged, listing: seq<Item>, round: nat) => Stage(staged, cached, listing, scope, round, remote)
  }

  function Lister(remote: Remote): nat -> Answer<seq<Item>> {
    (k: nat) => Listing(remote, k)
  }

  // ---- publication ----

  /** Staged evidence is usable only for the pair of the final listing. */
  predicate Usable(s: Settled, n: int) {
    && n in s.staged && Find(s.listing, n).Some? && Find(s.listing, n).value.revision.Some?
    && SamePair(s.staged[n].revision, Find(s.listing, n).value.revision.value)
  }

  function UsableNumbers(s: Settled): set<int> { set n | n in s.staged && Usable(s, n) }

  function Materialize(s: Settled, id: string, generation: int): Directory {
    var usable := UsableNumbers(s);
    Directory(Some(s.listing),
              map n | n in usable :: s.staged[n].files,
              Some(Meta(id, generation, map n | n in usable :: Find(s.listing, n).value.revision.value)))
  }

  function NextGeneration(disk: Disk): int {
    if disk.active.Some? then disk.active.value.generation + 1 else 1
  }

  /** `_active_snapshot_root`: the directory that `active.json` names, if it is a complete snapshot. */
  function Resolve(disk: Disk): Answer<Option<string>> {
    match disk.active
    case None => Ok(None)
    case Some(meta) => if Complete(disk, meta.snapshotId) then Ok(Some(meta.snapshotId)) else Error
  }

  predicate Complete(disk: Disk, id: string) {
    id in disk.dirs && disk.dirs[id].meta.Some? && disk.dirs[id].meta.value.snapshotId == id
      && disk.dirs[id].pulls.Some?
  }

  /**
   The active snapshot is the directory that `active.json` names, if its manifest names it back and it has
   a listing; there is none exactly without an `active.json`.
   */
  lemma ResolveIff(disk: Disk, id: string)
    ensures Resolve(disk) == Ok(Some(id)) <==>
            && disk.active.Some? && disk.active.value.snapshotId == id && id in disk.dirs
            && disk.dirs[id].pulls != None && disk.dirs[id].meta.Some? && disk.dirs[id].meta.value.snapshotId == id
    ensures Resolve(disk) == Ok(None) <==> disk.active == None
  {}

  /** The directory a refresh reads earlier evidence from. */
  function ReadRoot(disk: Disk): Answer<Directory> {
    match Resolve(disk)
    case Error => Error
    case Ok(None) => Ok(EMPTY)
    case Ok(Some(id)) => Ok(disk.dirs[id])
  }

  function Reconcile(disk: Disk, limit: nat, remote: Remote): Answer<Settled> {
    match ReadRoot(disk)
    case Error => Error
    case Ok(cached) =>
      match Listing(remote, 0)
      case Error => Error
      case Ok(listing) =>
        var scope := ScopeOf(listing, limit);
        Rounds(Stager(cached, scope, remote), Lister(remote), scope, map[], listing, 0)
  }

  /** A whole refresh: the new directory and the replaced `active.json`, or the disk without them. */
  function Refresh(disk: Disk, limit: nat, id: string, remote: Remote): Disk {
    match Reconcile(disk, limit, remote)
    case Error => disk
    case Ok(s) => var dir := Materialize(s, id, NextGeneration(disk)); Disk(disk.dirs[id := dir], dir.meta)
  }
}
