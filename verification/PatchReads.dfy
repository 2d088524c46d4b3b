/**
 Version-pinned reads of one patch in triage/service.py: the chunks that a client collects by
 following `next_patch_offset` while writers interleave are one consistent patch, or a read is
 refused: as stale, or because its offset is above the cap.
 */
module PatchReads {
  import opened Models
  import opened Records
  import opened Chunks
  import P = Pages

  const MAX_PATCH_OFFSET: nat := 100000000

  /** The patch of one file as the active store selects it from its immutable snapshot. */
  type PatchText = Store -> seq<Scalar>

  datatype Reply =
    | Chunked(chunk: Chunk, context: P.Context)
    | StaleVersion | StaleSnapshot | BadOffset | BadLimit | SnapshotRequired

  predicate ValidLimit(limit: int) { MIN_PATCH_CHUNK <= limit <= MAX_PATCH_CHUNK }

  /** What `read_patch` replies: versions first, then the offset, the limit and the continuation guard. */
  ghost predicate Replies(s: Store, text: PatchText, offset: int, limit: int, store: Option<nat>, snapshot: Option<nat>,
                          r: Reply)
  {
    if store.Some? && store.value != s.version then r.StaleVersion?
    else if snapshot.Some? && snapshot.value != s.snapshotVersion then r.StaleSnapshot?
    else if !(0 <= offset <= MAX_PATCH_OFFSET) then r.BadOffset?
    else if !ValidLimit(limit) then r.BadLimit?
    else if offset > 0 && (store.None? || snapshot.None?) then r.SnapshotRequired?
    else r.Chunked? && r.context == P.ContextOf(s) && IsChunk(text(s), offset, limit, r.chunk)
  }

  /** `_context` and `_patch`. */
  method ReadPatch(s: Store, text: PatchText, offset: int, limit: int, store: Option<nat>, snapshot: Option<nat>)
    returns (r: Reply)
    ensures Replies(s, text, offset, limit, store, snapshot, r)
  {
    hide IsChunk;
    if store.Some? && store.value != s.version {
      return Reply.StaleVersion;
    }
    if snapshot.Some? && snapshot.value != s.snapshotVersion {
      return Reply.StaleSnapshot;
    }
    if !(0 <= offset <= MAX_PATCH_OFFSET) {
      return BadOffset;
    }
    if !ValidLimit(limit) {
      return BadLimit;
    }
    if offset > 0 && (store.None? || snapshot.None?) {
      return SnapshotRequired;
    }
    var chunk := PatchChunk(text(s), offset, limit);
    r := Chunked(chunk, P.ContextOf(s));
  }

  // ---- a chain of continuations ----

  /**
   The replies to a client that asks from offset 0 and then follows `next_patch_offset` with the
   versions of the first reply, with any limits; request k comes at `clock(k)`.
   */
  ghost predicate IsPinned(s: Store, events: nat -> P.Event, text: PatchText, limits: nat -> int, clock: nat -> nat,
                           replies: seq<Reply>)
  {
    && replies != []
    && Replies(P.History(s, events, clock(0)), text, 0, limits(0), None, None, replies[0])
    && forall k: nat {:trigger Continues(s, events, text, limits, clock, replies, k)} | 0 < k < |replies| ::
         Continues(s, events, text, limits, clock, replies, k)
  }

  ghost predicate Continues(s: Store, events: nat -> P.Event, text: PatchText, limits: nat -> int, clock: nat -> nat,
                            replies: seq<Reply>, k: nat)
    requires 0 < k < |replies|
  {
    && replies[0].Chunked? && replies[k - 1].Chunked? && replies[k - 1].chunk.next.Some?
    && var pinned := replies[0].context;
       Replies(P.History(s, events, clock(k)), text, replies[k - 1].chunk.next.value, limits(k),
               Some(pinned.storeVersion), Some(pinned.snapshotVersion), replies[k])
  }

  function ChunksOf(replies: seq<Reply>): (chunks: seq<Chunk>)
    requires forall i | 0 <= i < |replies| :: replies[i].Chunked?
    ensures |chunks| == |replies| && forall i | 0 <= i < |chunks| :: chunks[i] == replies[i].chunk
  {
    seq(|replies|, i requires 0 <= i < |replies| => replies[i].chunk)
  }

  /** The limits of answered requests are valid; the others do not matter. */
  function Limits(limits: nat -> int): nat -> nat { (k: nat) => LimitOr(limits(k)) }

  function LimitOr(limit: int): (n: nat)
    ensures n >= MIN_PATCH_CHUNK && (ValidLimit(limit) ==> n == limit)
  {
    if ValidLimit(limit) then limit else MIN_PATCH_CHUNK
  }

  /** What a continuation gets is settled by whether the store moved, its offset and its limit. */
  lemma ContinuationReply(s: Store, events: nat -> P.Event, text: PatchText, limits: nat -> int, clock: nat -> nat,
                          replies: seq<Reply>, k: nat)
    requires P.Later(clock) && IsPinned(s, events, text, limits, clock, replies) && 0 < k < |replies|
    ensures replies[0].Chunked? && replies[k - 1].Chunked? && replies[k - 1].chunk.next.Some?
    ensures var first, next := P.History(s, events, clock(0)), replies[k - 1].chunk.next.value;
            if P.History(s, events, clock(k)) != first then replies[k].StaleVersion?
            else if next > MAX_PATCH_OFFSET then replies[k].BadOffset?
            else if !ValidLimit(limits(k)) then replies[k].BadLimit?
            else replies[k].Chunked? && IsChunk(text(first), next, limits(k), replies[k].chunk)
  {
    hide P.History, IsChunk;
    assert Continues(s, events, text, limits, clock, replies, k);
    assert clock(0) <= clock(k);
    P.HistoryAdvances(s, events, clock(0), clock(k));
  }

  /** Answered replies are a chain of chunks of one text: the patch as it was at the first request. */
  lemma AnsweredIsChain(s: Store, events: nat -> P.Event, text: PatchText, limits: nat -> int, clock: nat -> nat,
                        replies: seq<Reply>)
    requires P.Later(clock) && IsPinned(s, events, text, limits, clock, replies)
    requires forall i | 0 <= i < |replies| :: replies[i].Chunked?
    ensures IsChain(text(P.History(s, events, clock(0))), Limits(limits), ChunksOf(replies))
            && ValidLimits(Limits(limits))
  {
    hide P.History, IsChunk, Replies;
    var whole, chunks, usable := text(P.History(s, events, clock(0))), ChunksOf(replies), Limits(limits);
    FirstReply(s, events, text, limits, clock, replies);
    forall k: nat | 0 < k < |chunks|
      ensures Follows(whole, usable, chunks, k)
    {
      ContinuationReply(s, events, text, limits, clock, replies, k);
      assert usable(k) == limits(k) && chunks[k - 1] == replies[k - 1].chunk && chunks[k] == replies[k].chunk;
    }
    assert usable(0) == limits(0) && chunks[0] == replies[0].chunk;
    assert IsChunk(whole, 0, usable(0), chunks[0]);
    LimitsAreValid(limits);
  }

  lemma LimitsAreValid(limits: nat -> int)
    ensures ValidLimits(Limits(limits))
  {
    var usable := Limits(limits);
    forall k: nat
      ensures usable(k) >= MIN_PATCH_CHUNK
    {
      assert usable(k) == LimitOr(limits(k));
    }
  }

  lemma FirstReply(s: Store, events: nat -> P.Event, text: PatchText, limits: nat -> int, clock: nat -> nat,
                   replies: seq<Reply>)
    requires IsPinned(s, events, text, limits, clock, replies) && replies[0].Chunked?
    ensures replies[0].context == P.ContextOf(P.History(s, events, clock(0))) && ValidLimit(limits(0))
    ensures IsChunk(text(P.History(s, events, clock(0))), 0, limits(0), replies[0].chunk)
  {
    hide P.History, IsChunk;
  }

  /** A chain answered to its end returns the whole patch of one store version, whatever writers do meanwhile. */
  lemma ChainIsWholePatch(s: Store, events: nat -> P.Event, text: PatchText, limits: nat -> int, clock: nat -> nat,
                          replies: seq<Reply>)
    requires P.Later(clock) && IsPinned(s, events, text, limits, clock, replies)
    requires forall i | 0 <= i < |replies| :: replies[i].Chunked?
    ensures var whole := text(P.History(s, events, clock(0)));
            && (replies[|replies| - 1].chunk.next.None? ==> Texts(ChunksOf(replies)) == whole)
            && |replies| <= 1 + |whole|
  {
    hide P.History, IsChunk, IsPinned, IsChain, Texts, ValidLimits;
    AnsweredIsChain(s, events, text, limits, clock, replies);
    assert replies != [] by { PinnedIsNonEmpty(s, events, text, limits, clock, replies); }
    Chunks.ChainIsWholePatch(text(P.History(s, events, clock(0))), Limits(limits), ChunksOf(replies));
  }

  lemma PinnedIsNonEmpty(s: Store, events: nat -> P.Event, text: PatchText, limits: nat -> int, clock: nat -> nat,
                         replies: seq<Reply>)
    requires IsPinned(s, events, text, limits, clock, replies)
    ensures replies != []
  {}

  // ---- the cap ----

  /** A continuation starts at a boundary before the end of the patch. */
  lemma NextIsInside(s: seq<Scalar>, offset: nat, limit: nat, c: Chunk)
    requires IsChunk(s, offset, limit, c) && c.next.Some?
    ensures Boundary(s, c.next.value) && c.next.value < |Encode(s)|
  {
    hide Encode, FirstBoundary, LastBoundary;
    var i: nat, j: nat :| i <= j <= |s| && ChunkAt(s, offset, limit, c, i, j);
  }

  /** A last chunk ends the patch within its limit of where it was asked for. */
  lemma LastEndsPatch(s: seq<Scalar>, offset: nat, limit: nat, c: Chunk)
    requires IsChunk(s, offset, limit, c) && c.next.None? && Boundary(s, offset) && offset <= |Encode(s)|
    ensures |Encode(s)| <= offset + limit
  {
    hide Encode, Boundary;
    var i: nat, j: nat :| i <= j <= |s| && ChunkAt(s, offset, limit, c, i, j);
  }

  /** A chain that came to its end asked for its last chunk within the cap and one chunk before the end. */
  lemma EndIsNear(s: Store, events: nat -> P.Event, text: PatchText, limits: nat -> int, clock: nat -> nat,
                  replies: seq<Reply>)
    returns (b: nat)
    requires P.Later(clock) && IsPinned(s, events, text, limits, clock, replies)
    requires (forall i | 0 <= i < |replies| :: replies[i].Chunked?)
    requires replies != [] && replies[|replies| - 1].chunk.next.None?
    ensures var whole := text(P.History(s, events, clock(0)));
            Boundary(whole, b) && b <= MAX_PATCH_OFFSET && |Encode(whole)| <= b + MAX_PATCH_CHUNK
  {
    hide P.History, IsChunk, IsPinned, Encode, Boundary;
    var whole, k := text(P.History(s, events, clock(0))), |replies| - 1;
    FirstReply(s, events, text, limits, clock, replies);
    if k == 0 {
      StartIsBoundary(whole);
      b := 0;
      LastEndsPatch(whole, 0, limits(0), replies[0].chunk);
    } else {
      ContinuationReply(s, events, text, limits, clock, replies, k);
      if k == 1 {
        NextIsInside(whole, 0, limits(0), replies[0].chunk);
      } else {
        ContinuationReply(s, events, text, limits, clock, replies, k - 1);
        NextIsInside(whole, replies[k - 2].chunk.next.value, limits(k - 1), replies[k - 1].chunk);
      }
      b := replies[k - 1].chunk.next.value;
      LastEndsPatch(whole, b, limits(k), replies[k].chunk);
    }
  }

  lemma StartIsBoundary(s: seq<Scalar>)
    ensures Boundary(s, 0)
  {
    AtEnds(s);
    assert At(s, 0) == 0;
  }

  // ---- exactly which patches the cap stops ----

  /** Every request of the chain reads the same store. */
  function AtOnce(): nat -> nat { (k: nat) => 0 }

  /** Some client of an unmoved store is refused for its offset. */
  ghost predicate CanBeRefused(s: Store, events: nat -> P.Event, text: PatchText) {
    exists limits, replies :: RefusedAtEnd(s, events, text, limits, replies)
  }

  ghost predicate RefusedAtEnd(s: Store, events: nat -> P.Event, text: PatchText, limits: nat -> int,
                               replies: seq<Reply>)
  {
    IsPinned(s, events, text, limits, AtOnce(), replies) && replies[|replies| - 1].BadOffset?
  }

  /** Some client of an unmoved store reads the whole patch. */
  ghost predicate CanBeRead(s: Store, events: nat -> P.Event, text: PatchText) {
    exists limits, replies :: ReadToEnd(s, events, text, limits, replies)
  }

  ghost predicate ReadToEnd(s: Store, events: nat -> P.Event, text: PatchText, limits: nat -> int,
                            replies: seq<Reply>)
  {
    && IsPinned(s, events, text, limits, AtOnce(), replies)
    && (forall i | 0 <= i < |replies| :: replies[i].Chunked?) && replies[|replies| - 1].chunk.next.None?
  }

  /** Positions between code points from the start on, each pair a valid limit apart. */
  ghost predicate GoodCuts(s: seq<Scalar>, cuts: seq<nat>) {
    && cuts != [] && cuts[0] == 0 && (forall k | 0 <= k < |cuts| :: cuts[k] <= |s|)
    && forall k: nat {:trigger Spaced(s, cuts, k)} | k < |cuts| - 1 :: Spaced(s, cuts, k)
  }

  ghost predicate Spaced(s: seq<Scalar>, cuts: seq<nat>, k: nat)
    requires k + 1 < |cuts| && forall i | 0 <= i < |cuts| :: cuts[i] <= |s|
  {
    cuts[k] < cuts[k + 1] && ValidLimit(At(s, cuts[k + 1]) - At(s, cuts[k]))
  }

  lemma FourOn(s: seq<Scalar>, i: nat)
    requires i + 4 <= |s|
    ensures 4 <= At(s, i + 4) - At(s, i) <= 16
  {
    hide At;
    AtStep(s, i);
    AtStep(s, i + 1);
    AtStep(s, i + 2);
    AtStep(s, i + 3);
  }

  lemma OneMoreCut(s: seq<Scalar>, cuts: seq<nat>, j: nat)
    requires GoodCuts(s, cuts) && cuts[|cuts| - 1] < j <= |s| && ValidLimit(At(s, j) - At(s, cuts[|cuts| - 1]))
    ensures GoodCuts(s, cuts + [j])
  {
    hide At;
    var more := cuts + [j];
    forall k: nat {:trigger Spaced(s, more, k)} | k < |more| - 1
      ensures Spaced(s, more, k)
    {
      if k < |cuts| - 1 { assert Spaced(s, cuts, k); }
    }
  }

  /** Every position of at least four bytes can be reached. */
  lemma {:induction false} CutsTo(s: seq<Scalar>, j: nat) returns (cuts: seq<nat>)
    requires j <= |s| && At(s, j) >= MIN_PATCH_CHUNK
    ensures GoodCuts(s, cuts) && |cuts| >= 2 && cuts[|cuts| - 1] == j
  {
    hide At;
    AtEnds(s);
    if At(s, j) <= MAX_PATCH_CHUNK {
      assert GoodCuts(s, [0]);
      assert j > 0;
      OneMoreCut(s, [0], j);
      cuts := [0] + [j];
    } else {
      AtIsAtMostFour(s, j);
      FourOn(s, j - 4);
      cuts := CutsTo(s, j - 4);
      OneMoreCut(s, cuts, j);
      cuts := cuts + [j];
    }
  }

  lemma {:induction false} AtIsAtMostFour(s: seq<Scalar>, j: nat)
    requires j <= |s|
    ensures j <= At(s, j) <= 4 * j
  {
    hide At;
    AtEnds(s);
    if j > 0 {
      AtIsAtMostFour(s, j - 1);
      AtStep(s, j - 1);
    }
  }

  function Piece(s: seq<Scalar>, i: nat, j: nat): Chunk
    requires i <= j <= |s|
  {
    Chunk(s[i..j], At(s, i), |Encode(s)|, if At(s, j) < |Encode(s)| then Some(At(s, j)) else None)
  }

  lemma PieceIsChunk(s: seq<Scalar>, i: nat, j: nat, limit: nat)
    requires i < j <= |s| && At(s, j) <= At(s, i) + limit && (j < |s| ==> At(s, j) == At(s, i) + limit)
    ensures IsChunk(s, At(s, i), limit, Piece(s, i, j))
  {
    hide Encode, At;
    AtEnds(s);
    AtMonotone(s, i, j);
    AtMonotone(s, j, |s|);
    assert Boundary(s, At(s, i)) && Boundary(s, At(s, j));
    assert ChunkAt(s, At(s, i), limit, Piece(s, i, j), i, j);
  }

  ghost function CutLimits(s: seq<Scalar>, cuts: seq<nat>, final: int): nat -> int
    requires GoodCuts(s, cuts)
  {
    (k: nat) => if k + 1 < |cuts| then At(s, cuts[k + 1]) - At(s, cuts[k]) else final
  }

  ghost function CutReplies(s: seq<Scalar>, cuts: seq<nat>, context: P.Context, final: Reply): (r: seq<Reply>)
    requires GoodCuts(s, cuts)
    ensures |r| == |cuts| && r[|cuts| - 1] == final
    ensures forall k: nat | k < |cuts| - 1 ::
              Spaced(s, cuts, k) && r[k] == Chunked(Piece(s, cuts[k], cuts[k + 1]), context)
  {
    assert forall k: nat | k < |cuts| - 1 :: Spaced(s, cuts, k);
    seq(|cuts| - 1, k requires 0 <= k < |cuts| - 1 && Spaced(s, cuts, k) =>
      Chunked(Piece(s, cuts[k], cuts[k + 1]), context)) + [final]
  }
  lemma {:induction false} CutsAscend(s: seq<Scalar>, cuts: seq<nat>, k: nat)
    requires GoodCuts(s, cuts) && k < |cuts|
    ensures cuts[k] <= cuts[|cuts| - 1]
    decreases |cuts| - k
  {
    hide ValidLimit, At;
    if k < |cuts| - 1 {
      assert Spaced(s, cuts, k);
      CutsAscend(s, cuts, k + 1);
    }
  }

  /** A piece as long as the limit answers the request at its start. */
  lemma PieceReplies(s: Store, text: PatchText, i: nat, j: nat, limit: int)
    requires i < j <= |text(s)| && ValidLimit(limit) && At(text(s), j) == At(text(s), i) + limit
    requires At(text(s), i) <= MAX_PATCH_OFFSET
    ensures var r := Chunked(Piece(text(s), i, j), P.ContextOf(s));
            && Replies(s, text, At(text(s), i), limit, Some(s.version), Some(s.snapshotVersion), r)
            && (i == 0 ==> Replies(s, text, 0, limit, None, None, r))
  {
    hide Encode, At, IsChunk, Piece;
    AtEnds(text(s));
    PieceIsChunk(text(s), i, j, limit);
  }

  lemma CutReplyAt(s: seq<Scalar>, cuts: seq<nat>, context: P.Context, final: Reply, limit: int, k: nat)
    requires GoodCuts(s, cuts) && k < |cuts| - 1
    ensures cuts[k] < cuts[k + 1] <= |s| && (k == 0 ==> cuts[k] == 0)
    ensures CutReplies(s, cuts, context, final)[k] == Chunked(Piece(s, cuts[k], cuts[k + 1]), context)
    ensures var gap := CutLimits(s, cuts, limit)(k); ValidLimit(gap) && At(s, cuts[k + 1]) == At(s, cuts[k]) + gap
  {
    hide At, Piece;
    assert Spaced(s, cuts, k);
  }

  /** The reply to request k of a list of cuts is the piece between two of them. */
  lemma BuiltReply(s: Store, text: PatchText, cuts: seq<nat>, final: Reply, limit: int, k: nat)
    requires GoodCuts(text(s), cuts) && k < |cuts| - 1 && At(text(s), cuts[|cuts| - 1]) < |Encode(text(s))|
    requires At(text(s), cuts[k]) <= MAX_PATCH_OFFSET
    ensures cuts[k + 1] <= |text(s)|
    ensures var r := CutReplies(text(s), cuts, P.ContextOf(s), final)[k];
            && r.Chunked? && r.context == P.ContextOf(s) && r.chunk.next == Some(At(text(s), cuts[k + 1]))
            && Replies(s, text, At(text(s), cuts[k]), CutLimits(text(s), cuts, limit)(k), Some(s.version),
                       Some(s.snapshotVersion), r)
            && (k == 0 ==> Replies(s, text, 0, CutLimits(text(s), cuts, limit)(0), None, None, r))
  {
    hide Encode, At, Replies, GoodCuts, CutReplies, CutLimits;
    var whole := text(s);
    CutReplyAt(whole, cuts, P.ContextOf(s), final, limit, k);
    CutsAscend(whole, cuts, k + 1);
    LastIsWithin(whole, cuts);
    AtMonotone(whole, cuts[k + 1], cuts[|cuts| - 1]);
    PieceReplies(s, text, cuts[k], cuts[k + 1], CutLimits(whole, cuts, limit)(k));
  }

  lemma LastIsWithin(s: seq<Scalar>, cuts: seq<nat>)
    requires GoodCuts(s, cuts)
    ensures cuts != [] && cuts[|cuts| - 1] <= |s|
  {}

  /** The replies for a list of cuts within the cap, and one more for the last cut. */
  lemma BuiltIsPinned(s: Store, events: nat -> P.Event, text: PatchText, cuts: seq<nat>, final: Reply, limit: int)
    requires GoodCuts(text(s), cuts) && |cuts| >= 2 && At(text(s), cuts[|cuts| - 1]) < |Encode(text(s))|
    requires forall k | 0 <= k < |cuts| - 1 :: At(text(s), cuts[k]) <= MAX_PATCH_OFFSET
    requires Replies(s, text, At(text(s), cuts[|cuts| - 1]), limit, Some(s.version), Some(s.snapshotVersion), final)
    ensures IsPinned(s, events, text, CutLimits(text(s), cuts, limit), AtOnce(),
                     CutReplies(text(s), cuts, P.ContextOf(s), final))
  {
    hide P.History, Encode, At, Replies, CutReplies, CutLimits, GoodCuts, Continues;
    var limits, replies := CutLimits(text(s), cuts, limit), CutReplies(text(s), cuts, P.ContextOf(s), final);
    AllAtOnce(s, events, 0);
    BuiltReply(s, text, cuts, final, limit, 0);
    forall k: nat {:trigger Continues(s, events, text, limits, AtOnce(), replies, k)} | 0 < k < |replies|
      ensures Continues(s, events, text, limits, AtOnce(), replies, k)
    {
      BuiltContinues(s, events, text, cuts, final, limit, k);
    }
  }

  lemma AllAtOnce(s: Store, events: nat -> P.Event, k: nat)
    ensures P.History(s, events, AtOnce()(k)) == s
  {}

  lemma BuiltContinues(s: Store, events: nat -> P.Event, text: PatchText, cuts: seq<nat>, final: Reply, limit: int,
                       k: nat)
    requires GoodCuts(text(s), cuts) && 0 < k < |cuts| && At(text(s), cuts[|cuts| - 1]) < |Encode(text(s))|
    requires forall k | 0 <= k < |cuts| - 1 :: At(text(s), cuts[k]) <= MAX_PATCH_OFFSET
    requires Replies(s, text, At(text(s), cuts[|cuts| - 1]), limit, Some(s.version), Some(s.snapshotVersion), final)
    ensures Continues(s, events, text, CutLimits(text(s), cuts, limit), AtOnce(),
                      CutReplies(text(s), cuts, P.ContextOf(s), final), k)
  {
    hide P.History, Encode, At, Replies, CutReplies, GoodCuts;
    AllAtOnce(s, events, k);
    BuiltReply(s, text, cuts, final, limit, 0);
    BuiltReply(s, text, cuts, final, limit, k - 1);
    if k < |cuts| - 1 { BuiltReply(s, text, cuts, final, limit, k); }
  }

  /** Cuts up to the first one above the cap. */
  lemma {:induction false} CutsAbove(s: seq<Scalar>, j: nat) returns (cuts: seq<nat>)
    requires j <= |s| && At(s, j) > MAX_PATCH_OFFSET
    ensures GoodCuts(s, cuts) && |cuts| >= 2 && cuts[|cuts| - 1] <= j && At(s, cuts[|cuts| - 1]) > MAX_PATCH_OFFSET
    ensures forall k | 0 <= k < |cuts| - 1 :: At(s, cuts[k]) <= MAX_PATCH_OFFSET
  {
    hide At;
    AtIsAtMostFour(s, j);
    FourOn(s, j - 4);
    if At(s, j - 4) > MAX_PATCH_OFFSET {
      cuts := CutsAbove(s, j - 4);
    } else {
      var below := CutsTo(s, j - 4);
      OneMoreCut(s, below, j);
      cuts := below + [j];
      CutsWithin(s, below, MAX_PATCH_OFFSET);
    }
  }

  lemma CutsWithin(s: seq<Scalar>, cuts: seq<nat>, bound: nat)
    requires GoodCuts(s, cuts) && At(s, cuts[|cuts| - 1]) <= bound
    ensures forall k | 0 <= k < |cuts| :: At(s, cuts[k]) <= bound
  {
    hide At, Spaced;
    forall k | 0 <= k < |cuts|
      ensures At(s, cuts[k]) <= bound
    {
      CutsAscend(s, cuts, k);
      AtMonotone(s, cuts[k], cuts[|cuts| - 1]);
    }
  }

  /** An offset can be refused exactly when some position between code points lies above the cap and before the end. */
  lemma RefusedIff(s: Store, events: nat -> P.Event, text: PatchText)
    ensures CanBeRefused(s, events, text) <==>
            exists b: nat :: Boundary(text(s), b) && MAX_PATCH_OFFSET < b < |Encode(text(s))|
  {
    hide Encode, At, IsChunk, IsPinned, GoodCuts, Replies;
    var whole := text(s);
    if CanBeRefused(s, events, text) {
      var limits, replies :| RefusedAtEnd(s, events, text, limits, replies);
      var b := RefusedOffset(s, events, text, limits, replies);
    }
    if b: nat :| Boundary(whole, b) && MAX_PATCH_OFFSET < b < |Encode(whole)| {
      var j: nat :| j <= |whole| && At(whole, j) == b;
      var cuts := CutsAbove(whole, j);
      CutsBeforeEnd(whole, cuts, j);
      RefusalIsReply(s, text, At(whole, cuts[|cuts| - 1]));
      BuiltIsPinned(s, events, text, cuts, BadOffset, MIN_PATCH_CHUNK);
      assert RefusedAtEnd(s, events, text, CutLimits(whole, cuts, MIN_PATCH_CHUNK),
                          CutReplies(whole, cuts, P.ContextOf(s), BadOffset));
    }
  }

  lemma CutsBeforeEnd(s: seq<Scalar>, cuts: seq<nat>, j: nat)
    requires GoodCuts(s, cuts) && cuts[|cuts| - 1] <= j <= |s| && At(s, j) < |Encode(s)|
    ensures At(s, cuts[|cuts| - 1]) < |Encode(s)|
  {
    hide At, Encode;
    AtMonotone(s, cuts[|cuts| - 1], j);
  }

  lemma RefusalIsReply(s: Store, text: PatchText, offset: nat)
    requires offset > MAX_PATCH_OFFSET
    ensures Replies(s, text, offset, MIN_PATCH_CHUNK, Some(s.version), Some(s.snapshotVersion), BadOffset)
  {}

  lemma RefusedOffset(s: Store, events: nat -> P.Event, text: PatchText, limits: nat -> int, replies: seq<Reply>)
    returns (b: nat)
    requires RefusedAtEnd(s, events, text, limits, replies)
    ensures Boundary(text(s), b) && MAX_PATCH_OFFSET < b < |Encode(text(s))|
  {
    hide IsChunk, Encode, Boundary;
    var k, clock := |replies| - 1, AtOnce();
    AllAtOnce(s, events, 0);
    assert P.Later(clock);
    ContinuationReply(s, events, text, limits, clock, replies, k);
    FirstReply(s, events, text, limits, clock, replies);
    if k == 1 {
      NextIsInside(text(s), 0, limits(0), replies[0].chunk);
    } else {
      ContinuationReply(s, events, text, limits, clock, replies, k - 1);
      NextIsInside(text(s), replies[k - 2].chunk.next.value, limits(k - 1), replies[k - 1].chunk);
    }
    b := replies[k - 1].chunk.next.value;
  }
  /** Some client reads the whole patch exactly when some position within the cap is a largest chunk from its end. */
  lemma ReadIff(s: Store, events: nat -> P.Event, text: PatchText)
    ensures CanBeRead(s, events, text) <==>
            exists b: nat :: Boundary(text(s), b) && b <= MAX_PATCH_OFFSET && |Encode(text(s))| <= b + MAX_PATCH_CHUNK
  {
    hide Encode, IsPinned, Boundary, ReadToEnd;
    if CanBeRead(s, events, text) {
      var limits, replies :| ReadToEnd(s, events, text, limits, replies);
      var b := NearEnd(s, events, text, limits, replies);
    }
    if b: nat :| Boundary(text(s), b) && b <= MAX_PATCH_OFFSET && |Encode(text(s))| <= b + MAX_PATCH_CHUNK {
      if |Encode(text(s))| <= MAX_PATCH_CHUNK {
        OneReplyReads(s, events, text);
      } else {
        var j := LastCut(text(s), b);
        CutsRead(s, events, text, j);
      }
    }
  }

  lemma NearEnd(s: Store, events: nat -> P.Event, text: PatchText, limits: nat -> int, replies: seq<Reply>)
    returns (b: nat)
    requires ReadToEnd(s, events, text, limits, replies)
    ensures Boundary(text(s), b) && b <= MAX_PATCH_OFFSET && |Encode(text(s))| <= b + MAX_PATCH_CHUNK
  {
    hide IsChunk, Encode, Boundary, Replies;
    var clock := AtOnce();
    AllAtOnce(s, events, 0);
    assert P.Later(clock);
    b := EndIsNear(s, events, text, limits, clock, replies);
  }

  function LargeEnough(n: nat): nat { if n < MIN_PATCH_CHUNK then MIN_PATCH_CHUNK else n }

  lemma WholePiece(s: seq<Scalar>, limit: nat) returns (c: Chunk)
    requires |Encode(s)| <= limit
    ensures IsChunk(s, 0, limit, c) && c.next.None?
  {
    hide Encode, At;
    AtEnds(s);
    c := Piece(s, 0, |s|);
    assert Boundary(s, At(s, 0)) && Boundary(s, At(s, |s|));
    assert ChunkAt(s, 0, limit, c, 0, |s|);
  }

  lemma OneReplyReads(s: Store, events: nat -> P.Event, text: PatchText)
    requires |Encode(text(s))| <= MAX_PATCH_CHUNK
    ensures CanBeRead(s, events, text)
  {
    hide P.History, Encode, At, IsChunk;
    var whole, limit := text(s), LargeEnough(|Encode(text(s))|);
    var c := WholePiece(whole, limit);
    AllAtOnce(s, events, 0);
    var limits: nat -> int := (k: nat) => limit;
    var replies := [Chunked(c, P.ContextOf(s))];
    assert Replies(s, text, 0, limits(0), None, None, replies[0]);
    assert ReadToEnd(s, events, text, limits, replies);
  }

  /** A position of at least four bytes, within the cap and before the end, from which one chunk reaches the end. */
  lemma LastCut(s: seq<Scalar>, b: nat) returns (j: nat)
    requires Boundary(s, b) && b <= MAX_PATCH_OFFSET && MAX_PATCH_CHUNK < |Encode(s)| <= b + MAX_PATCH_CHUNK
    ensures j < |s| && MIN_PATCH_CHUNK <= At(s, j) <= MAX_PATCH_OFFSET
    ensures At(s, j) < |Encode(s)| <= At(s, j) + MAX_PATCH_CHUNK
  {
    hide Encode, At;
    AtEnds(s);
    AtIsAtMostFour(s, |s|);
    j :| j <= |s| && At(s, j) == b;
    if b < MIN_PATCH_CHUNK {
      FourOn(s, 0);
      j := 4;
      AtIsAtMostFour(s, 4);
      AtMonotone(s, 4, |s|);
    } else if b == |Encode(s)| {
      FourOn(s, |s| - 4);
      j := |s| - 4;
    } else if b > |Encode(s)| {
      AtMonotone(s, j, |s|);
    } else if j == |s| {
      assert false;
    }
  }

  lemma CutsRead(s: Store, events: nat -> P.Event, text: PatchText, j: nat)
    requires j < |text(s)| && MIN_PATCH_CHUNK <= At(text(s), j) <= MAX_PATCH_OFFSET
    requires At(text(s), j) < |Encode(text(s))| <= At(text(s), j) + MAX_PATCH_CHUNK
    ensures CanBeRead(s, events, text)
  {
    hide Encode, At, IsPinned, CutReplies, GoodCuts;
    var whole := text(s);
    var n, limit := |whole|, LargeEnough(|Encode(whole)| - At(whole, j));
    AtEnds(whole);
    var cuts := CutsTo(whole, j);
    CutsWithin(whole, cuts, MAX_PATCH_OFFSET);
    PieceIsChunk(whole, j, n, limit);
    var final := Chunked(Piece(whole, j, n), P.ContextOf(s));
    BuiltIsPinned(s, events, text, cuts, final, limit);
    var limits, replies := CutLimits(whole, cuts, limit), CutReplies(whole, cuts, P.ContextOf(s), final);
    forall i | 0 <= i < |replies|
      ensures replies[i].Chunked?
    {
      if i < |cuts| - 1 { CutReplyAt(whole, cuts, P.ContextOf(s), final, limit, i); }
    }
    assert ReadToEnd(s, events, text, limits, replies);
  }
}
