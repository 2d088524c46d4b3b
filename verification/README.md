# Verification model of the pull-request triage store

This project models the parts of the triage service whose correctness spans several
functions or whole runs, and proves what the service promises about them. Run
`dafny verify dfyconfig.toml` (Dafny 4.11) to check it.

## Layout

| files | component |
|---|---|
| `Order`, `Models`, `GroupIds` | sorted enumeration of finite sets, shared records, decimal group ids |
| `UnionFind`, `Graphs`, `Jaccard`, `Cluster`, `ClusterByValue` | the prefix-filtered Jaccard join over a union-find forest |
| `GroupSearch`, `Assign`, `Assignment`, `AssignStability` | incremental assignment of pull requests to groups |
| `Snapshots`, `SnapshotTruth`, `SnapshotCache` | the snapshot refresh: specification, truth over runs, and the writes and loops that perform it |
| `Duplicates`, `Active`, `ActiveMeaning`, `Queues` | duplicate-of cycles, active dispositions, the work queue |
| `Records`, `GroupEvidence`, `Stores`, `FileReviews`, `FileWriters`, `StoreFile` | the store record, its writers as guarded steps, and the store file whose methods perform them |
| `GroupVerification`, `WriterGuards`, `FileGuards` | exactly when a group verifies, an item is bound and a writer accepts a request |
| `StoreRuns`, `StoreRetries`, `StoreSafety`, `DuplicateSafety`, `Decisions`, `FileRuns` | what holds over every run of the writers |
| `Scenarios` | concrete runs from the empty store where the code does less than its words |
| `Pages`, `Patches`, `Chunks`, `PatchReads`, `Readers`, `Prune`, `CacheText` | pinned pagination, unified-diff accounting, UTF-8 chunks and their pinned chain, the socket reader, cache pruning |

Code that changes things step by step is a class or a method with loops, proved against a
specification function; lemmas then speak about that function. The store file is a class
whose methods are proved equal to the guarded steps of `Stores` and `FileReviews`; the
cache is a class whose refresh is proved equal to `Snapshots.Refresh`.

## What the environment is

- The remote of a refresh is an arbitrary function from listing numbers to listings and
  from rounds and numbers to file answers, either of which may fail. `SnapshotTruth.World`
  is the repository over time; a `Clock` says when each listing read each pull request.
- The workers of a refresh take the in-scope items in any order; each item is one step,
  as items of one listing have different numbers.
- Reading pinned evidence while the store is locked, with the check of the row's repository
  and source, is an arbitrary function of the row in each call; the queue's own reading of the
  rows is modelled with that check (`Stores.PersistedScope`).
- Fresh identifiers are parameters. Where a theorem needs them to be new it says so
  (`StoreRuns.FreshIds`); the commit-time validator makes event, finding and draft ids
  unique by itself.
- The store's file lock makes each writer one step, so a run is a sequence of commands.
- A hash is represented by the material it is taken over, so equal hashes mean equal material.

## Where the code does less than its words

- `triage/store.py` checks the whole store for duplicate cycles by pull-request number
  alone, so a row of another repository overrides one with the same number. The check is
  enough exactly for the lists of keys in which no number of the repository is overridden,
  or only its single one (`DuplicateSafety.SafeKeysExactly`, `NoDuplicateCycle`); a run
  that commits a cycle is `Scenarios.SharedNumbersHideCycle`.
- A committed decision moves its group exactly when the group's bound revisions name the
  evidence snapshots of its rows (`Decisions.DecisionTakesEffect`): verification ignores
  the snapshot id, the queue compares it. `Scenarios.DecisionWithoutEffect` is a run where
  they differ.
- A retry of a keyed proposal draft returns the proposal as it is now, which is what was
  drafted exactly while it is still a draft (`StoreRetries.DraftRetryReturnsDraft`);
  `Scenarios.RetriedDraftComesBackDeclined` is a run where it is not.
- A keyed retry is refused while another repository is active, except for decisions, which
  compare their key first: one that names its repository is answered from any other
  (`StoreRetries`).
- `read_patch` refuses offsets above 100,000,000 bytes, so following its continuations does
  not always end with the whole patch. Which patches can be read to their end, and for which
  a client can be refused, is stated exactly on the positions between their code points
  (`PatchReads.ReadIff`, `RefusedIff`).
- `_DeadlineReader.read` with a negative size drops what had arrived when the deadline
  comes first; every other call keeps it (`Readers.CallKeepsBytes`, `LosingStream`).

## Model

| member | source | states |
|---|---|---|
| `UnionFinds.UnionFind.Add` | triage/unionfind.py:15-18 | Adding a new element makes it a class of its own and changes no other class; the forest invariant is kept. |
| `UnionFinds.UnionFind.Find` | triage/unionfind.py:20-27 | The loop with path halving returns the class representative, leaves the partition as it was, and makes at most log2(n) parent moves (`Pow2(moves) <= n`). |
| `UnionFinds.UnionFind.Union` | triage/unionfind.py:29-40 | Exactly the two classes are merged under one root and every other class stays; union by rank keeps the forest invariant. |
| `UnionFinds.UnionFind.Components` | triage/unionfind.py:42-52 | Each class is listed once, in first-seen order, with its members in order. |
| `UnionFinds.RankIsLogarithmic` | triage/unionfind.py:33-40 | A root of rank r has at least 2^r members, so no rank exceeds log2(n). |
| `UnionFinds.HalvingKeepsForest` | triage/unionfind.py:24-26 | Pointing a node at its grandparent keeps strictly increasing ranks and every representative. |
| `UnionFinds.LinkKeepsForest` | triage/unionfind.py:33-40 | Linking two roots by rank keeps the forest and the 2^rank bound. |
| `UnionFinds.MembersAreTheClass` | triage/unionfind.py:46-52 | The listed members of a root are exactly its class. |
| `UnionFinds.RootsAreDistinct` | triage/unionfind.py:46-52 | The first-seen list of roots has no repetition and covers every class. |
| `Jaccard.SimilarIsConfirmed` | triage/cluster.py:16-20 | The quotient test against 18/25 is the integer test 25*inter >= 18*union on non-empty sets. |
| `Jaccard.JaccardIsQuotient` | triage/cluster.py:16-20 | On sets that are not both empty the index times the size of the union is the size of the intersection. |
| `Jaccard.NotAboveIff` | triage/cluster.py:16-20 | One index is at most another exactly when the cross products of their cardinalities say so. |
| `Jaccard.PrefixIs` | triage/cluster.py:76-76 | The prefix leaves out one path less than the least number that is 18/25 of the paths or more. |
| `Jaccard.SizeFilterIsLossless` | triage/cluster.py:23-27 | Sets that reach the threshold pass the size filter. |
| `Jaccard.RarestCommonInPrefix` | triage/cluster.py:75-79 | The rarest common path of two similar sets lies in the prefix of both. |
| `Jaccard.PrefixFilterIsLossless` | triage/cluster.py:74-91 | Two sets that reach the threshold share a path within their rarity-ordered prefixes: the prefix filter loses no qualifying pair. |
| `Cluster.FillBuckets` | triage/cluster.py:47-54 | The buckets hold exactly the non-empty path sets, each with the positions that have it, in order. |
| `Cluster.UniteBuckets` | triage/cluster.py:63-66 | All members of a bucket end in one class, and classes only join positions connected by similarity. |
| `Cluster.JoinPair` | triage/cluster.py:81-88 | A candidate pair is united when similar, and never otherwise across components. |
| `Cluster.JoinRound` | triage/cluster.py:74-91 | One round leaves every earlier similar bucket joined with this one and extends the prefix index by exactly its prefix. |
| `Cluster.CandidatesSuffice` | triage/cluster.py:77-79 | Every earlier similar bucket is among the candidates found through the prefix index. |
| `Cluster.FrequencyIs` | triage/cluster.py:67-67 | The frequency that orders a path set is the number of path sets with that path, and zero for others. |
| `Cluster.JoinedIsComplete` | triage/cluster.py:63-91 | After both phases no similar pair of pull requests is separated. |
| `Cluster.ClassIsComponent` | triage/cluster.py:63-95 | A sound and complete forest has exactly the connected components of the similarity graph as classes. |
| `Cluster.ClusterPrs` | triage/cluster.py:43-108 | The groups are exactly the connected components of the graph that joins pull requests whose non-empty path sets have Jaccard at least 18/25, path-less ones alone, in the documented order with their metadata. |
| `Cluster.GroupsAreNumbered` | triage/cluster.py:97-108 | The groups are numbered from 1 in their order, in at least three digits and without other leading zeros. |
| `Models.BuiltGroup` | triage/cluster.py:119-135 | A group lists its members' numbers in order, the paths all of them share, all their paths, and their titles and non-blank fingerprints once each in order of first appearance. |
| `ClusterByValue.ClusterResultByValue` | triage/cluster.py:93-108 | For distinct numbers the groups are a function of the set of pull requests. |
| `ClusterByValue.ClusterOrderIndependent` | triage/cluster.py:35-42 | For distinct numbers the whole result (ids, members, metadata) is the same for every input order. |
| `GroupSearch.FindBest` | triage/assign.py:121-145 | The search pruned by shared paths and sizes equals exhaustive search over all groups: the chosen set has the largest quotient of intersection by union, compared by cross products of cardinalities, a tie goes to the smaller id, and there is a choice exactly when the largest reaches 18/25. |
| `GroupSearch.BestByIsHighest` | triage/assign.py:124-145 | The choice by cardinalities is the choice by the Jaccard index: highest index first, then smallest id. |
| `GroupSearch.DissimilarSetsDoNotMatter` | triage/assign.py:146-152 | Path sets below the threshold that were added to groups change no later search. |
| `Assign.SplitRetained` | triage/assign.py:67-93 | The split by the retention rule: kept pull requests under their group in order, the rest in order. |
| `Assign.RetainedIff` | triage/assign.py:59-91 | A pull request stays exactly when some own group lists it, and the last one that does recorded the same revision or, without one, the same paths. |
| `Assign.PlaceCluster` | triage/assign.py:112-154 | One fresh cluster joins its best group or is left over, as exhaustive search over the retained members decides. |
| `Assignment.NextGroupIds` | triage/assign.py:19-27 | New ids count up from one past the largest numbered id, in the format of group ids. |
| `GroupIds.GroupIdForm` | triage/assign.py:27-27 | A group id is G and the decimal number in at least three digits, with no leading zero beyond them. |
| `GroupIds.IsNumberedIff` | triage/assign.py:21-25 | A numbered id is G and at least one digit, whatever the number of digits. |
| `Assignment.StartNumberIs` | triage/assign.py:20-26 | New ids start one past the largest numbered id, and at 1 without any. |
| `Assignment.NewIdIsFree` | triage/assign.py:157-167 | No new id is reserved or carried by any existing group, of whatever repository. |
| `Assignment.AssignIncremental` | triage/assign.py:49-172 | The loops compute the groups of the member map that the lemmas below speak about, sorted by smallest number. |
| `Assignment.AssignPartitions` | triage/assign.py:156-172 | For distinct numbers every pull request lies in exactly one non-empty output group. |
| `Assignment.AssignedIdentities` | triage/assign.py:52-58 | An output id belongs to an existing group of this repository or avoids every reserved and existing id, so foreign groups gain no member. |
| `Assignment.AssignedPlacement` | triage/assign.py:69-154 | A pull request is in the group that retains it; otherwise its whole fresh cluster joins the exhaustive best group or forms a group of exactly that cluster. |
| `Assignment.AssignOrderIndependent` | triage/assign.py:95-154 | The groups do not depend on the order in which pull requests, and so fresh clusters, are processed. |
| `AssignStability.AssignedGroupsPartition` | triage/assign.py:156-172 | The returned list: different ids, each an own existing one or free; no group is empty or lists a number twice; every input number is in exactly one group and nothing else is. |
| `AssignStability.AssignGroupsOrderIndependent` | triage/assign.py:156-172 | The output list of groups (ids, numbers, shared files, signature, order) is the same for every input order. |
| `AssignStability.NothingMoves` | triage/assign.py:73-91 | Assigning unchanged pull requests again, against the groups bound by the previous run, moves nobody. |
| `SnapshotTruth.ConfirmedIsTrue` | triage/gh.py:1029-1048 | Files downloaded between two listings of the same head/base pair are the files of that pair, for pull requests that never return to an earlier pair. |
| `SnapshotTruth.StageKeepsCaptured` | triage/gh.py:937-1028 | A staging round keeps the invariant: every staged list is true for its pair or was downloaded after that pair was listed. |
| `SnapshotTruth.ReconciledTruthful` | triage/gh.py:1052-1122 | The snapshot a refresh materializes maps every manifest entry to the true file list of its pair, including lists reused from earlier rounds or snapshots. |
| `SnapshotTruth.RunTruthful` | triage/gh.py:712-721 | Over any number of refreshes, stopped anywhere or not, every file list in every snapshot is true for the head/base pair published with it. |
| `SnapshotTruth.PinnedReadStable` | triage/gh.py:1391-1420 | A read pinned to a snapshot id returns the same evidence after any later refreshes. |
| `SnapshotTruth.RunResolves` | triage/gh.py:361-400 | After any run the active file resolves to exactly the last published snapshot, or to what was active before, and the generation has grown by the number of publications. |
| `SnapshotTruth.GenerationsCount` | triage/gh.py:1142-1150 | From a cache without a snapshot the active generation is the number of publications so far. |
| `SnapshotTruth.RoundsEnd` | triage/gh.py:1050-1084 | Reconciliation ends after the last permitted round or earlier with a confirming listing that did not move. |
| `SnapshotTruth.EarlyExitIsComplete` | triage/gh.py:1055-1073 | Leaving before the round cap means that every pull request still listed with a known revision, among the first `limit` of the first listing when there is a limit, has usable files for that very head and base. |
| `SnapshotTruth.UnmovedIsReused` | triage/gh.py:1025-1048 | Files that the active snapshot has for a head and base are published again while every listing states that pair, inside the file cap or outside, whatever the remote would answer. |
| `SnapshotTruth.EachRoundWasNeeded` | triage/gh.py:1055-1073 | Every further round follows a listing in which a number within the cap was new or had another head or base. |
| `SnapshotTruth.RefreshFailsOnlyOnFailure` | triage/gh.py:806-1084 | There is no snapshot only when the active one cannot be read, one of the at most four listings fails or is malformed, or a download within the cap fails. |
| `Snapshots.ScopeIsFirst` | triage/gh.py:840-905 | The file cap takes exactly the first `limit` numbers of the first listing, and no limit takes every number. |
| `Snapshots.ResolveIff` | triage/gh.py:361-400 | The active snapshot is the directory that the active file names, if its manifest names it back and it has a listing; there is none exactly without an active file. |
| `SnapshotTruth.PublishedIsReadable` | triage/gh.py:1092-1122 | A published snapshot gives back, for each number, the listed item and its staged bytes when usable, and no files otherwise. |
| `SnapshotCache.StopBeforeSwap` | triage/gh.py:1160-1161 | Between the manifest and the active file the new directory is complete and the old snapshot still active. |
| `SnapshotCache.CrashIsPossibleStop` | triage/gh.py:343-358 | Stopping after any write leaves the previous snapshot active, every other directory untouched and the new one without manifest or complete. |
| `SnapshotCache.Cache.StageOne` | triage/gh.py:937-990 | One worker leaves exactly the staged entry of the specification, its bytes on disk, and at most one request for its number in the round. |
| `SnapshotCache.Cache.StageScoped` | triage/gh.py:1012-1024 | Workers in any order stage exactly the in-scope numbers; a failed worker stops no other, and its failure is raised only when the step fails for that listing. |
| `SnapshotCache.Cache.StageListing` | triage/gh.py:992-1048 | Workers in any order, then the reuse pass outside the file cap, compute the specified staging step. |
| `SnapshotCache.Cache.RunRounds` | triage/gh.py:1050-1084 | The loop computes the specified rounds with at most MAX_RECONCILIATION_ROUNDS + 2 listings and one file request per number, round and scope. |
| `SnapshotCache.Cache.Publish` | triage/gh.py:1086-1161 | The new directory's file set is its manifest's keys with the staged bytes, and the manifest and active file are the last two writes. |
| `SnapshotCache.Cache.RefreshSnapshot` | triage/gh.py:806-1161 | A whole refresh yields the specified disk with at most 4 listings and at most 3 file requests per number; with a limit, only numbers among the first `limit` of the first listing are requested, so at most `limit` different ones; on failure only the unpublished directory was written. |
| `Duplicates.HasCycle` | triage/store.py:1427-1447 | The walk with a seen set finds a cycle exactly when some number reaches itself. |
| `Duplicates.AcyclicChainEnds` | triage/store.py:1440-1447 | Without cycles, following duplicate_of ends within as many steps as there are edges. |
| `Duplicates.FindCycleNumbers` | triage/queue.py:327-347 | The positions loop collects exactly the numbers that reach themselves. |
| `Duplicates.WithoutCyclesAcyclic` | triage/queue.py:345-348 | Removing those numbers leaves an acyclic graph and keeps every chain that merely leads into a cycle. |
| `GroupEvidence.VerifiedIsBound` | triage/store.py:1085-1195 | A verified group is stored, its members are unique, and the freshly read revisions, one per member in order, equal its binding and digest. |
| `GroupVerification.RecaptureIff` | triage/store.py:871-1061 | A member's revision is captured exactly when reading does not contradict its row (content, and on GitHub head and base), and it is what was read if that is complete, else what is recorded, as incomplete. |
| `GroupVerification.VerifyIff` | triage/store.py:1085-1197 | A group verifies exactly when it is the only one of its id, its members are different positive numbers with one row each, every revision is captured from that row, and binding and digest are those of the revisions. |
| `GroupVerification.GroupForWriteIff` | triage/store.py:1259-1269 | A writer of items also needs an id of 1 to 128 characters and a store that records every pull request once. |
| `GroupVerification.DigestsAgree` | triage/models.py:454-478 | Two digests are equal exactly when the revisions are, apart from cache provenance and in whatever order they were listed. |
| `GroupVerification.BindsIff` | triage/store.py:1338-1407 | An item is accepted exactly when its number is new, its reason has 1 to 1000 characters and some row binds it: about a member, at the recorded change, to a different member if it is a duplicate, complete where that is required. |
| `GroupEvidence.NormalizeItems` | triage/store.py:1317-1407 | The loop accepts exactly the item lists that the specification binds, with the first error in order. |
| `GroupEvidence.BoundItems` | triage/store.py:1338-1407 | Accepted items are about different members, each bound to the current revision of itself and of its duplicate target, complete where completeness is required. |
| `Active.ActiveDispositions` | triage/queue.py:206-348 | The counting, validation and cycle loops return exactly the unique, valid rows of the active repository and source that lie on no cycle. |
| `Active.ActiveIsExact` | triage/queue.py:251-348 | A row is active if and only if it is valid, unique for its number and on no duplicate cycle of the valid rows; the active graph is acyclic. |
| `ActiveMeaning.ActiveIff` | triage/queue.py:215-348 | A row is active exactly when the repository is known, the source is the one given or the only one that the evidence names, and on the evidence of that source the row counts and lies on no cycle. |
| `ActiveMeaning.ValidIffAcceptedAgain` | triage/queue.py:260-326 | The reader counts a row exactly when the writer would accept it again, as it is, with complete evidence. |
| `ActiveMeaning.CandidateEdges` | triage/queue.py:327-334 | The graph of the rows that count has an edge exactly for each of their duplicates, to the pull request it names. |
| `Active.ActiveOrderIndependent` | triage/queue.py:251-348 | The active map is the same for every order of the rows. |
| `Active.ActiveAgain` | triage/store.py:2051-2065 | Validating the active rows a second time, as the queue refresh does, drops none of them. |
| `Queues.AppliedRuleReviewedAll` | triage/queue.py:24-72 | A rule applies only when its reviewed revisions are exactly the group's bound ones, one per member, all complete for an approval. |
| `Queues.RuleAppliesIff` | triage/queue.py:24-72 | A rule applies exactly when it is about this group of this repository and what was reviewed is what the group is bound to: members, revisions, one for each, and digest; an approval needs complete evidence besides. |
| `Queues.EachGroupInOnePile` | triage/queue.py:113-158 | Every group lies in exactly one of the six piles. |
| `Queues.KnownIsApproved` | triage/queue.py:137-149 | A known group has an applying approval of its complete bound revisions and no local disposition. |
| `Queues.BuildQueue` | triage/queue.py:75-158 | The loops over rules and groups fill the piles of the projection, whose members the next rows say. |
| `Queues.ReviewedIff` | triage/queue.py:120-136 | A group is reviewed exactly when it has members and each has an active row about its current revision that is not pending. |
| `Queues.RuledIff` | triage/queue.py:137-149 | A group is in the pile of a verdict exactly when no member has a row and the last rule of the repository for it applies with that verdict. |
| `Queues.NeedsIff` | triage/queue.py:120-149 | A group needs attention exactly when some member has a row and some has none or a pending one, or no member has one and no applying rule is the last for it. |
| `Queues.QueueRepoIff` | triage/queue.py:86-91 | The queue is about the repository given, or about the only one that the groups record. |
| `Stores.FindRuleId` | triage/store.py:1981-1987 | The suffix loop ends with a rule id that was never reserved. |
| `StoreFiles.CheckDuplicateCycles` | triage/store.py:1427-1447 | The graph built by overriding and removing edges is acyclic exactly when the check passes. |
| `StoreFiles.Validate` | triage/store.py:276-429 | The commit-time validator accepts exactly the valid stores, with its cycle check over all rows and over each proposal. |
| `StoreFiles.RefreshQueue` | triage/store.py:2044-2065 | The recomputed queue is the projection of the store. |
| `WriterGuards.CurrentIff` | triage/store.py:1064-1082 | The evidence of a number is current exactly when its only row can be read in this store: a positive number, no other repository, the store's source or, without one, its own, and intact. |
| `WriterGuards.TargetIff` | triage/store.py:1534-1545 | A write is about the group it names, or about the only group that has all its pull requests among its members. |
| `WriterGuards.CanonicalIs` | triage/store.py:1666-1668 | A draft is about the pull request its caller names, or the one its first duplicate names, or none. |
| `WriterGuards.SettledAnswers` | triage/store.py:1834-1846 | A settled proposal answers the action that settled it again without change and refuses every other; an open one is never answered from its status. |
| `WriterGuards.LocalCheckIff` | triage/store.py:1410-1457 | The cycle check of a write passes exactly when the duplicates that the current rows of the group will name once it is recorded form no cycle. |
| `WriterGuards.SavedGroupIsAcyclic` | triage/store.py:1450-1563 | In every reachable store a committed write of dispositions leaves no cycle among the current rows of its group. |
| `WriterGuards.AcceptedGroupIsAcyclic` | triage/store.py:1849-1903 | So does the acceptance of a proposal. |
| `StoreFiles.StoreFile.SaveRunState` | triage/store.py:656-723 | Publishing a snapshot is its guarded step: stale expectations change nothing, otherwise both versions grow by one. |
| `StoreFiles.StoreFile.SaveDispositions` | triage/store.py:1480-1563 | Saving dispositions is its guarded step: recorded answer, refusal without change, or replaced rows under one event. |
| `StoreFiles.StoreFile.DraftProposal` | triage/store.py:1611-1704 | Drafting is its guarded step and only appends a proposal in draft state. |
| `StoreFiles.StoreFile.TransitionProposal` | triage/store.py:1792-1903 | Accepting, editing and rejecting are guarded steps of the proposal's lifecycle. |
| `StoreFiles.StoreFile.DecideGroup` | triage/store.py:1909-2041 | Deciding is its guarded step: verified evidence, one event with the rule, one rule per group. |
| `StoreFiles.StoreFile.WriteFile` | triage/store.py:2781-3359 | The five file writers are guarded steps with recorded answers and an append-only log. |
| `FileWriters.PrepareReview` | triage/store.py:2835-2853 | The steps of a file review: one target, complete patch evidence to mark it reviewed, and the old review of the same file and revision replaced. |
| `FileWriters.PrepareStatus` | triage/store.py:3005-3027 | The search for one finding, its repository check and its new status are the specified change. |
| `FileWriters.PrepareDraft` | triage/store.py:3109-3195 | The loops over drafted findings and coverage compute the specified draft, with unique coverage paths. |
| `FileWriters.PrepareAdoption` | triage/store.py:3268-3341 | The searches, checks and record changes of an adoption are the specified one, with every refusal in order. |
| `FileWriters.Prepare` | triage/store.py:2781-3359 | Each of the five writers performs the specified change of the file records. |
| `StoreRuns.StepAdvances` | triage/store.py:463-469 | Every writer either leaves the store unchanged or commits the next version, extends the logs, keeps every recorded answer and leaves a valid store. |
| `StoreRuns.RunExtends` | triage/store.py:517-524 | Over any run versions never fall, logs and recorded answers are only extended, and the store stays valid. |
| `StoreRuns.VersionDeterminesStore` | triage/store.py:1519-1563 | Two states of one run with the same version are the same store. |
| `StoreRuns.DispositionsAdvance` | triage/store.py:1519-1563 | A committed write expected exactly the present versions, if any, and the right repository, and records its answer under its key. |
| `StoreRuns.UnexpectedIsRefused` | triage/store.py:687-693 | When another version or snapshot is expected than the present one, no writer changes the store, and a request without a recorded answer is refused for just that reason, the snapshot first. |
| `StoreRuns.PublishIff` | triage/store.py:680-723 | A snapshot is published exactly when nothing else was expected, both versions can still grow and the result is valid. |
| `StoreRetries.DispositionsRetry` | triage/store.py:1509-1527 | What a keyed write's key answers after any later commits, a switched repository included: refused for another repository, answered with the recorded rows exactly for the same request, refused for any other. |
| `StoreRetries.DecideRetry` | triage/store.py:1931-1969 | What a keyed decision's key answers after any later commits: the original rule exactly when the request, with the repository it names or else the active one, is the recorded one, also from another active repository. |
| `StoreRetries.TransitionRetry` | triage/store.py:1802-1825 | What a keyed transition's key answers after any later commits: repository, then existence, then the proposal as that transition left it exactly for the same request. |
| `StoreRetries.TransitionRetryFinds` | triage/store.py:1566-1574 | With fresh ids the proposal of a transition is found in every later store. |
| `StoreRetries.DraftRetry` | triage/store.py:1635-1650 | What a keyed draft's key answers after any later commits: the proposal with the recorded id in its present state, or which refusal. |
| `StoreRetries.DraftRetryReturnsDraft` | triage/store.py:1642-1650 | With fresh ids and the repository active, the retry returns what was drafted if and only if that proposal is still a draft. |
| `Scenarios.RetriedDraftComesBackDeclined` | triage/store.py:1642-1650 | A run from the empty store whose retried draft comes back declined. |
| `StoreRetries.FileRetry` | triage/store.py:2726-2752 | What a keyed file write's key answers after any later commits: refused for another repository, the recorded answer exactly for the same request, refused for any other. |
| `StoreSafety.DecisionBacksRule` | triage/store.py:1990-2040 | Each decision records the event that backs its rule. |
| `StoreSafety.KnownIsRecorded` | triage/store.py:1968-2041 | In every reachable store a group in the known pile has a recorded approval whose revisions are exactly the group's bound ones, all complete, one per member. |
| `DuplicateSafety.AppliedKeepsSound` | triage/store.py:1450-1477 | Applying dispositions keeps one row per pull request and repository, each bound to its own and its target's revision. |
| `DuplicateSafety.CheckedEdgesAre` | triage/store.py:1427-1447 | In the graph that the whole-store check walks an edge is the last row of a number, of whatever repository, when that names a duplicate. |
| `DuplicateSafety.RepoEdgesAre` | triage/store.py:1427-1447 | In the graph of one repository an edge is a row of it that names a duplicate. |
| `DuplicateSafety.SafeKeysExactly` | triage/store.py:1427-1447 | Exactly when the whole-store check is enough: no list of acceptable rows over these keys has a cycle in the repository if and only if none of its numbers is followed by the same number of another repository, unless it has only one. |
| `DuplicateSafety.SafeKeysSuffice` | triage/store.py:369-369 | With such keys the whole-store check leaves no duplicate cycle in the repository. |
| `DuplicateSafety.OwnNumbersAreSafe` | triage/store.py:1430-1439 | A repository whose numbers have rows of no other repository is among these. |
| `DuplicateSafety.NoDuplicateCycle` | triage/store.py:1427-1477 | No reachable store with such keys has a duplicate cycle in the repository, whatever regroupings hid from the group-local check, and duplicate_of ends within as many steps as there are rows. |
| `Scenarios.SharedNumbersHideCycle` | triage/store.py:1430-1439 | A run from the empty store that commits a cycle: the graph is keyed by number alone, so a row of another repository hides an edge from the validator. |
| `StoreSafety.RunKeepsSettled` | triage/store.py:1833-1848 | Accepted and rejected proposals are absorbing over every run. |
| `StoreSafety.AcceptanceAppliesOnce` | triage/store.py:1870-1905 | Acceptance records its rows once under the one event the proposal then names, and the accepted proposal stays; edits and rejections record no disposition. |
| `StoreSafety.TransitionFrame` | triage/store.py:1849-1903 | A transition replaces one proposal: an edit and an acceptance its items and status, a rejection its status only, each with actor and named pull request; only an acceptance touches dispositions. |
| `StoreSafety.PublishFrame` | triage/store.py:694-723 | A publication replaces groups, rows, source, repository and queue by what it names, files the groups under the repository, and leaves every human record. |
| `StoreSafety.RunKeepsProposalIdsUnique` | triage/store.py:1664-1678 | Fresh identifiers keep proposal ids unique over every run. |
| `StoreSafety.DraftFrame` | triage/store.py:1679-1704 | An agent's proposal draft changes only proposals, their events and keys: no rule, disposition or file record. |
| `Decisions.BindingIs` | triage/models.py:429-440 | Binding a group lists the evidence of its members and is complete exactly when there are members and each has complete evidence. |
| `Decisions.BoundGroupVerifies` | triage/models.py:429-451 | A group bound to the evidence of its rows passes verification, complete exactly as it was bound. |
| `Decisions.DecisionTakesEffect` | triage/store.py:1909-2041 | In a reachable store, unless a local row claims a member, a decision moves its group to the pile of the verdict if and only if every bound revision names the evidence snapshot and the source of its row, and otherwise to the pile that needs attention; with a local row the pile stays. |
| `Scenarios.DecisionWithoutEffect` | triage/queue.py:62-62 | A run from the empty store whose committed decision leaves its group in need of attention. |
| `Decisions.SavedDispositionsAreBound` | triage/store.py:1544-1563 | A committed disposition write recorded exactly its items, bound to the group verified at that moment and under one event, touched no other row, and left the queue up to date. |
| `Decisions.AcceptedProposalIsBound` | triage/store.py:1849-1888 | An accepted proposal was actionable and about the group snapshot it was drafted for; its items were bound again with complete evidence and replaced only their own rows. |
| `Decisions.QueueFollows` | triage/store.py:2044-2065 | After dispositions, transitions and decisions the stored queue is the projection of the committed store. |
| `Decisions.SwitchedRowsDoNotCount` | triage/store.py:792-822 | Publishing another repository over rows that name the old one leaves no current revision and no local row in the queue. |
| `FileRuns.FileRecordsAreBound` | triage/store.py:2531-2559 | A committed review or finding is about one manifest entry, under its current path even when addressed by its old one, at the revision that was read. |
| `FileRuns.DraftIsBound` | triage/store.py:3109-3195 | A committed draft holds one pending finding and one coverage row for each submitted one, bound to the entries and the revision that were read; only coverage of the same files is replaced. |
| `FileGuards.ResolvedIff` | triage/store.py:2540-2576 | A path is resolved to the first entry of that path or, without one, the first renamed from it; it is refused when there is none. |
| `FileGuards.ReviewAcceptedIff` | triage/store.py:2696-2853 | A review or finding is accepted exactly when every pull request is recorded once, the row's manifest can be read at the supplied revision and the path addresses an entry, which has its whole patch if it is marked reviewed. |
| `FileGuards.StatusAcceptedIff` | triage/store.py:3005-3027 | A status can be set exactly on the only finding of its id in the repository, and changes that finding's status. |
| `FileGuards.DraftAcceptedIff` | triage/store.py:3080-3180 | A draft is accepted exactly when it proposes something within the limits, every path addresses an entry at the right revision, an inspected file has a patch and none is covered twice. |
| `FileGuards.AdoptAcceptedIff` | triage/store.py:3268-3330 | A decided drafted finding is answered as it is; a pending one is decided exactly when the evidence still has the draft's revision and, to accept it, its path still addresses an entry. |
| `FileGuards.AdoptNeedsDraft` | triage/store.py:3268-3284 | Nothing is decided without the only draft of its id, in the repository, and a finding of that id in it. |
| `FileReviews.WithoutReview` | triage/store.py:2850-2853 | A new file review replaces exactly the earlier review of the same file and revision. |
| `FileRuns.DecisionLinks` | triage/store.py:3285-3340 | Deciding a drafted finding keeps accepted drafted findings and findings made from drafts in correspondence. |
| `FileRuns.AdoptionShape` | triage/store.py:3285-3330 | An adoption decides one pending drafted finding and, when accepting, creates the one finding with its text, author, adopter and origin. |
| `FileRuns.AdoptionIsOneToOne` | triage/store.py:3218-3359 | Over every run accepted drafted findings and findings adopted from drafts are in bijection. |
| `FileRuns.RunKeepsDecided` | triage/store.py:3276-3279 | A decided drafted finding never changes again. |
| `FileRuns.AgentDraftsDecideNothing` | triage/store.py:3041-3215 | Agent drafts touch no review, finding, rule, proposal, disposition or queue, and all their findings are pending. |
| `FileRuns.FileWritesDecideNothing` | triage/store.py:2781-3215 | File writers change file records only; a file is marked reviewed only with complete patch evidence of its own. |
| `FileRuns.FileWriteIsLogged` | triage/store.py:2835-2865 | A committed file write adds one event with its request, of an agent exactly for a draft. |
| `Pages.PageCovers` | triage/service.py:663-668 | Each page continues where the previous ended, and a next page is announced exactly when rows remain. |
| `Pages.AnswersIff` | triage/service.py:788-797 | A page is answered exactly when the supplied versions are those of the store and a later page supplies both; a wrong store version is told first. |
| `Pages.RestoreIff` | triage/store.py:606-648 | A backup is restored exactly when it is valid at the least version above both stores and not before the clock, and that version exists. |
| `Pages.RestoreGrows` | triage/store.py:628-648 | A restored store is newer than both stores, has the larger snapshot version, and is otherwise the backup. |
| `Pages.HistoryIsRun` | triage/store.py:606-723 | A history without restores is a run of its writers. |
| `Pages.HistoryAdvances` | triage/store.py:606-723 | In any interleaving of writers and restores an equal version means an equal store. |
| `Pages.ChainIsPrefix` | triage/service.py:702-730 | Whatever writers do meanwhile, k answered continuations are the first k pages of the list at one version. |
| `Pages.ChainIsWholeList` | triage/service.py:663-730 | A chain followed to its end is the whole list at one single version, each row once and in order. |
| `Pages.ContinuationFailsIffMoved` | triage/service.py:788-797 | A continuation fails, as stale, exactly when the store changed since the first page. |
| `Patches.HeaderReadBack` | triage/models.py:317-319 | The header pattern reads back every printed header. |
| `Patches.HeaderIsPrinted` | triage/models.py:317-319 | Whatever the header pattern matches is the print of the parts it captures. |
| `Patches.PreambleIff` | triage/models.py:352-366 | What may come before the hunks of a whole patch is exactly any number of lines of the eight kinds of file metadata. |
| `Patches.PrintedIsParsed` | triage/models.py:336-379 | Reading the lines of a printed patch gives back its metadata and hunks. |
| `Patches.AcceptedIffPrinted` | triage/models.py:322-379 | Lines are read as a whole patch if and only if they are its print. |
| `Patches.CountsMatchDeclaration` | triage/models.py:341-342 | Additions minus deletions is the declared growth from old to new lines. |
| `Patches.UnfinishedIsRejected` | triage/models.py:340-378 | Stopping inside an unfinished hunk is rejected. |
| `Patches.PrefixIsRejectedIff` | triage/models.py:340-378 | The first lines of an accepted patch are rejected if and only if they stop before its first hunk or inside a hunk with declared lines still missing. |
| `Patches.LineCounts` | triage/models.py:330-379 | The loop over counters accepts exactly the lines of whole patches and returns their added and removed lines. |
| `Patches.LinesReadBack` | triage/models.py:336-336 | Lines survive being written with line feeds and split again. |
| `Patches.UnifiedPatchLineCounts` | triage/models.py:322-379 | A text is accepted if and only if it splits into the lines of metadata and balanced hunks, with exactly their counts. |
| `Patches.SplitIsExact` | triage/models.py:336-336 | Every text is its split lines with one separator behind each, a carriage return with a line feed counted once and no empty line at the end. |
| `Patches.SplitIsUnique` | triage/models.py:336-336 | No other separator-free lines give the text in that way. |
| `Patches.DeclaredCountsAreKept` | triage/models.py:343-378 | A hunk that declares a old and b new lines is balanced exactly when a lines begin with a minus sign or a blank and b with a plus sign or a blank. |
| `Patches.MissingCountIsOne` | triage/models.py:343-344 | Writing out every missing count as 1 changes neither acceptance nor the counts. |
| `Patches.OneLineHunkIsAccepted` | triage/models.py:343-344 | One line for another without any declared count is accepted as one added and one removed line. |
| `Patches.WrittenPatchIsAccepted` | triage/models.py:322-379 | Every balanced patch of plain lines, written with or without a final line feed, is accepted. |
| `Chunks.DecodeEncode` | triage/service.py:1001-1009 | Strict decoding inverts UTF-8 encoding. |
| `Chunks.EncodingIs` | triage/service.py:1001-1004 | Each code point is encoded in its shortest form, with the marks and bits of UTF-8. |
| `Chunks.ScalarsAreCharacters` | triage/service.py:1001-1004 | The values that are encoded are exactly the code points of characters. |
| `Chunks.BoundaryIff` | triage/service.py:1005-1012 | The continuation-byte test tells exactly the offsets between code points. |
| `Chunks.PatchChunk` | triage/service.py:991-1018 | The loops return the whole code points from the first boundary at or after the offset to the last one within the limit. |
| `Chunks.ChunkIsBounded` | triage/service.py:1011-1018 | A chunk stays within its limit; one with a continuation is non-empty and moves on. |
| `Chunks.ChainIsWholePatch` | triage/service.py:991-1018 | Over one text, following the continuations of chunks from 0 with any limits of at least 4 bytes ends, and the chunks concatenate to the text. |
| `PatchReads.ReadPatch` | triage/service.py:1531-1546 | One read: versions, offset cap, limit and continuation guard in this order, then the chunk of the active store's patch. |
| `PatchReads.ContinuationReply` | triage/service.py:788-797 | A pinned continuation is stale exactly when the store changed since the first read; otherwise it is refused exactly when its offset is above the cap or its limit invalid, and answered with the chunk of that same patch. |
| `PatchReads.ChainIsWholePatch` | triage/service.py:1531-1550 | Whatever writers do meanwhile, replies answered to the end concatenate to the whole patch of one store version, within as many replies as it has code points and one. |
| `PatchReads.EndIsNear` | triage/service.py:1533-1546 | A chain that came to its end, whatever writers do, asked for its last chunk at a position within the cap and at most one largest chunk before the end of the patch. |
| `PatchReads.RefusedIff` | triage/service.py:1533-1533 | A client of an unmoved store can be refused for its offset if and only if some position between code points lies above the cap and before the end of the patch. |
| `PatchReads.ReadIff` | triage/service.py:1531-1550 | Some client of an unmoved store reads the whole patch if and only if some position between code points lies within the cap and at most one largest chunk before its end. |
| `Readers.LineDecided` | triage/server.py:94-108 | Once a line is decided by the buffered bytes, later bytes do not change it. |
| `Readers.LineShape` | triage/server.py:94-108 | A returned line has no newline before its last byte, and without one it is the limit or the whole stream. |
| `Readers.TakeShape` | triage/server.py:116-132 | A bounded read returns as many bytes as asked for, or all that come before the end. |
| `Readers.CallKeepsBytes` | triage/server.py:94-132 | One call keeps every byte of the stream if and only if it is not an unbounded read that meets the deadline after something arrived. |
| `Readers.LosingStream` | triage/server.py:116-132 | A stream on which the unbounded read loses a byte that a bounded one keeps. |
| `Readers.AnswersConserve` | triage/server.py:94-132 | What a sequence of calls returned and what is left are the stream if and only if no call of it loses bytes. |
| `Readers.DeadlineReader.ReadLine` | triage/server.py:94-114 | The answer and the bytes left are a function of the bytes ahead, whether a deadline is ahead and the limit, not of how the bytes were received; it times out exactly when the deadline comes before the line is decided, and then loses nothing. |
| `Readers.DeadlineReader.Read` | triage/server.py:116-132 | The same for bounded and unbounded reads: a bounded one times out exactly when fewer bytes than asked for come before the deadline, an unbounded one at every deadline. |
| `Prune.EstimateCovers` | triage/rank.py:633-641 | The estimate exceeds the written size of a bucket by one comma unless it is empty. |
| `Prune.EstimateWithout` | triage/rank.py:660-665 | Subtracting an entry's size keeps the running estimate exact. |
| `CacheText.FileSize` | triage/rank.py:629-630 | The size that is accounted is the size in UTF-8 of the JSON text that is written. |
| `CacheText.QuotedSize` | triage/rank.py:633-637 | The size of a key is that of its JSON string, with the short and the six-character escapes. |
| `Prune.CappedIsDetermined` | triage/rank.py:625-630 | Which records a cap on their number leaves is determined by recency and key. |
| `Prune.Cache.DropExcess` | triage/rank.py:647-650 | Exactly the newest records stay in each bucket, as many as its cap allows. |
| `Prune.Cache.DropUntilFits` | triage/rank.py:651-666 | The oldest records of both buckets go one after the other until the estimate fits, and before the last of them it did not fit. |
| `Prune.Cache.PruneCache` | triage/rank.py:644-666 | The caps on numbers, then the cap on size, drop no record more than needed; counts and written size are within the caps, no dropped record is newer than a kept one of its bucket, and a cache that fits is unchanged. |

## Left out

- HTTP routing, request validation, static files, threads and sockets beyond the reader, setting its deadline anew, `gh` subprocess calls, embedding providers and the command-line, MCP and browser front ends: I/O and adapters.
- Scoring in `triage/rank.py`, titles, labels, summaries, overlap rows and hotspots: no clean exact statement, or easy members only.
- Legacy caches and stores, and permissive JSON coercion: records are well formed, and the cache starts empty or valid.
- Floating point: the threshold 0.72 is the exact 18/25, with which the comparisons agree for sets of realistic size.
- Non-ASCII decimal digits, which the header pattern and group ids also accept.
- Repository names, sources, actors and reasons are already normalised, as the writers' first lines do; timestamps, provenance and free-form context of proposals and drafts are not recorded.
- Numbers of one input to grouping are distinct, as the listing validation of triage/gh.py:604-627 guarantees, and group ids are not blank, as triage/store.py:331-332 demands.
- `triage/pipeline.py` and its retry order: publication is modelled at `save_run_state`, so no order between fetches is claimed.
- `save_store`, `upsert_rule` and hand-edited files as arbitrary writers.
- Restoring over an unreadable store; restoring over a readable one is modelled for version growth only, since it can replace the logs.
- Interleaving inside one worker of a refresh, and progress counters and time stamps of staged files.
- Sizes in the pruned cache count the characters of JSON text as UTF-8 bytes and take the size of a value as given.
- Raw rows of a store with wrong types, which the readers skip: they do not exist among typed records.
