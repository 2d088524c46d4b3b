/**
 The byte-bounded patch chunks of triage/service.py over UTF-8 (section 3 of RFC 3629):
 whole code points, and together exactly the patch.
 */
module Chunks {
  import opened Models

  const MIN_PATCH_CHUNK: nat := 4
  const MAX_PATCH_CHUNK: nat := 16384

  // ---- the encoding ----

  /** A Unicode scalar value. */
  predicate IsScalar(c: int) { 0 <= c < 0xD800 || 0xE000 <= c < 0x110000 }

  type Scalar = c: int | IsScalar(c)

  type Byte = b: int | 0 <= b < 256

  function Tail(x: int): (b: Byte)
    ensures IsContinuation(b)
  {
    0x80 + x % 64
  }

  function EncodeOne(c: Scalar): (bytes: seq<Byte>)
    ensures 1 <= |bytes| <= 4 && !IsContinuation(bytes[0])
    ensures forall k | 1 <= k < |bytes| :: IsContinuation(bytes[k])
  {
    var n: int := c;
    assert IsScalar(n);
    if n < 0x80 then (var b: Byte := n; [b])
    else if n < 0x800 then [0xC0 + n / 64, Tail(n)]
    else if n < 0x10000 then [0xE0 + n / 4096, Tail(n / 64), Tail(n)]
    else (var b: Byte := 0xF0 + n / 262144; [b, Tail(n / 4096), Tail(n / 64), Tail(n)])
  }

  /** `byte & 0xC0 == 0x80`. */
  predicate IsContinuation(b: Byte) { 0x80 <= b < 0xC0 }

  function CodePoint(c: char): int { c as int }

  /** The scalar values are exactly the code points of characters. */
  lemma ScalarsAreCharacters(n: int)
    ensures IsScalar(n) <==> exists c :: CodePoint(c) == n
  {
    if IsScalar(n) { assert CodePoint(n as char) == n; }
  }

  function Encode(s: seq<Scalar>): seq<Byte> {
    if s == [] then [] else Encode(s[..|s| - 1]) + EncodeOne(s[|s| - 1])
  }

  /** The payload of the k-th byte. */
  function Payload(bytes: seq<Byte>, k: nat): int {
    if k < |bytes| then bytes[k] as int - 0x80 else 0
  }

  function Value(bytes: seq<Byte>): int
    requires bytes != []
  {
    var b: int := bytes[0];
    if b < 0x80 then b
    else if b < 0xE0 then (b - 0xC0) * 64 + Payload(bytes, 1)
    else if b < 0xF0 then (b - 0xE0) * 4096 + Payload(bytes, 1) * 64 + Payload(bytes, 2)
    else (b - 0xF0) * 262144 + Payload(bytes, 1) * 4096 + Payload(bytes, 2) * 64 + Payload(bytes, 3)
  }

  /** The code point that the bytes begin with, if it is encoded the only valid way. */
  function DecodeOne(bytes: seq<Byte>): (r: Option<Scalar>)
    ensures r.Some? ==> EncodeOne(r.value) <= bytes
  {
    if bytes == [] || !IsScalar(Value(bytes)) then None
    else if EncodeOne(Value(bytes)) <= bytes then Some(Value(bytes)) else None
  }

  /** Strict decoding. */
  function Decode(bytes: seq<Byte>): Option<seq<Scalar>> {
    if bytes == [] then Some([]) else
      match DecodeOne(bytes)
      case None => None
      case Some(c) =>
        match Decode(bytes[|EncodeOne(c)|..])
        case None => None
        case Some(rest) => Some([c] + rest)
  }

  lemma TwoBytes(c: int)
    requires 0x80 <= c < 0x800
    ensures c == c / 64 * 64 + c % 64
  {}

  lemma ThreeBytes(c: int)
    requires 0x800 <= c < 0x10000
    ensures c == c / 4096 * 4096 + c / 64 % 64 * 64 + c % 64
  {
    assert c / 64 / 64 == c / 4096;
  }

  lemma FourBytes(c: int)
    requires 0x10000 <= c < 0x110000
    ensures c == c / 262144 * 262144 + c / 4096 % 64 * 4096 + c / 64 % 64 * 64 + c % 64
  {
    assert c / 64 / 64 == c / 4096 && c / 4096 / 64 == c / 262144;
  }

  /** What the k-th byte carries beside its mark. */
  function Bits(bytes: seq<Byte>, k: nat, mark: int): int
    requires k < |bytes|
  {
    bytes[k] as int - mark
  }

  /** The shortest form of each code point: its marks, its continuation bytes and the bits they carry. */
  lemma EncodingIs(c: Scalar)
    ensures var n: int, b := c, EncodeOne(c);
            if n <= 0x7F then |b| == 1 && b[0] == n
            else if n <= 0x7FF then |b| == 2 && 0xC0 <= b[0] <= 0xDF && n == Bits(b, 0, 0xC0) * 64 + Bits(b, 1, 0x80)
            else if n <= 0xFFFF then
              |b| == 3 && 0xE0 <= b[0] <= 0xEF
              && n == Bits(b, 0, 0xE0) * 4096 + Bits(b, 1, 0x80) * 64 + Bits(b, 2, 0x80)
            else
              |b| == 4 && 0xF0 <= b[0] <= 0xF7
              && n == Bits(b, 0, 0xF0) * 262144 + Bits(b, 1, 0x80) * 4096 + Bits(b, 2, 0x80) * 64 + Bits(b, 3, 0x80)
  {
    var n: int := c;
    assert IsScalar(n);
    if n < 0x80 {
    } else if n < 0x800 {
      TwoBytes(n);
    } else if n < 0x10000 {
      ThreeBytes(n);
    } else {
      FourBytes(n);
    }
  }

  lemma ValueEncoded(c: Scalar, rest: seq<Byte>)
    ensures Value(EncodeOne(c) + rest) == c
  {
    var bytes := EncodeOne(c) + rest;
    var n: int := c;
    assert IsScalar(n);
    assert forall k | 0 <= k < |EncodeOne(c)| :: bytes[k] == EncodeOne(c)[k];
    if n < 0x80 {
    } else if n < 0x800 {
      TwoBytes(n);
    } else if n < 0x10000 {
      ThreeBytes(n);
    } else {
      FourBytes(n);
    }
  }

  lemma DecodeEncodeOne(c: Scalar, rest: seq<Byte>)
    ensures DecodeOne(EncodeOne(c) + rest) == Some(c)
  {
    hide Value, EncodeOne;
    ValueEncoded(c, rest);
  }

  lemma {:induction false} EncodeConcat(a: seq<Scalar>, b: seq<Scalar>)
    ensures Encode(a + b) == Encode(a) + Encode(b)
  {
    hide EncodeOne;
    if b == [] {
      assert a + b == a;
    } else {
      var n := |b| - 1;
      assert (a + b)[..|a + b| - 1] == a + b[..n];
      EncodeConcat(a, b[..n]);
    }
  }

  lemma EncodeSingle(c: Scalar)
    ensures Encode([c]) == EncodeOne(c)
  {
    hide EncodeOne;
    assert [c][..0] == [];
  }

  lemma {:induction false} DecodeEncode(s: seq<Scalar>)
    ensures Decode(Encode(s)) == Some(s)
  {
    hide DecodeOne, EncodeOne;
    if s != [] {
      assert s == [s[0]] + s[1..];
      EncodeConcat([s[0]], s[1..]);
      EncodeSingle(s[0]);
      DecodeEncodeOne(s[0], Encode(s[1..]));
      DecodeEncode(s[1..]);
      assert Encode(s)[|EncodeOne(s[0])|..] == Encode(s[1..]);
    }
  }

  // ---- boundaries ----

  /** The byte offset of the i-th code point. */
  function At(s: seq<Scalar>, i: nat): nat
    requires i <= |s|
  {
    |Encode(s[..i])|
  }

  lemma AtEnds(s: seq<Scalar>)
    ensures At(s, 0) == 0 && At(s, |s|) == |Encode(s)|
  {
    assert s[..|s|] == s;
  }

  lemma AtStep(s: seq<Scalar>, i: nat)
    requires i < |s|
    ensures At(s, i) < At(s, i + 1) <= At(s, i) + 4
  {
    hide EncodeOne;
    assert s[..i + 1][..i] == s[..i];
  }

  lemma {:induction false} AtMonotone(s: seq<Scalar>, i: nat, j: nat)
    requires i <= j <= |s|
    ensures At(s, i) + (j - i) <= At(s, j)
  {
    if i < j {
      AtMonotone(s, i, j - 1);
      AtStep(s, j - 1);
    }
  }

  lemma SliceIsEncoded(s: seq<Scalar>, i: nat, j: nat)
    requires i <= j <= |s|
    ensures At(s, i) <= At(s, j) <= |Encode(s)| && Encode(s)[At(s, i)..At(s, j)] == Encode(s[i..j])
  {
    hide EncodeOne;
    assert s == s[..j] + s[j..] && s[..j] == s[..i] + s[i..j];
    EncodeConcat(s[..j], s[j..]);
    EncodeConcat(s[..i], s[i..j]);
  }

  /** A byte offset between code points, or at the end. */
  ghost predicate Boundary(s: seq<Scalar>, k: nat) {
    exists i: nat :: i <= |s| && At(s, i) == k
  }

  lemma {:induction false} BoundaryIff(s: seq<Scalar>, k: nat)
    requires k < |Encode(s)|
    ensures Boundary(s, k) <==> !IsContinuation(Encode(s)[k])
  {
    var n := |s| - 1;
    var front := s[..n];
    assert s == front + [s[n]];
    var m := |Encode(front)|;
    assert At(s, n) == m;
    if k < m {
      BoundaryIff(front, k);
      assert Encode(s)[k] == Encode(front)[k];
      SameBoundary(s, k);
    } else if k == m {
      assert Encode(s)[k] == EncodeOne(s[n])[0];
    } else {
      assert Encode(s)[k] == EncodeOne(s[n])[k - m];
      if Boundary(s, k) {
        var i: nat :| i <= |s| && At(s, i) == k;
        AtEnds(s);
        if i <= n { AtMonotone(s, i, n); }
      }
    }
  }

  lemma SameBoundary(s: seq<Scalar>, k: nat)
    requires s != [] && k < |Encode(s[..|s| - 1])|
    ensures Boundary(s, k) <==> Boundary(s[..|s| - 1], k)
  {
    hide EncodeOne, Encode;
    var n := |s| - 1;
    forall i: nat | i <= n ensures At(s, i) == At(s[..n], i) { assert s[..n][..i] == s[..i]; }
    if Boundary(s, k) {
      var i: nat :| i <= |s| && At(s, i) == k;
      if i == |s| { AtMonotone(s, n, |s|); }
      assert At(s[..n], i) == k;
    }
    if Boundary(s[..n], k) {
      var i: nat :| i <= n && At(s[..n], i) == k;
      assert At(s, i) == k;
    }
  }

  lemma EndIsBoundary(s: seq<Scalar>)
    ensures Boundary(s, 0) && Boundary(s, |Encode(s)|)
  {
    AtEnds(s);
  }

  /** The next boundary is at most four bytes on. */
  lemma NextBoundary(s: seq<Scalar>, k: nat) returns (next: nat)
    requires Boundary(s, k) && k < |Encode(s)|
    ensures Boundary(s, next) && k < next <= k + 4 && next <= |Encode(s)|
  {
    hide Encode, EncodeOne;
    var i: nat :| i <= |s| && At(s, i) == k;
    AtEnds(s);
    AtStep(s, i);
    next := At(s, i + 1);
    AtMonotone(s, i + 1, |s|);
  }

  // ---- one chunk ----

  datatype Chunk = Chunk(text: seq<Scalar>, start: nat, total: nat, next: Option<nat>)

  ghost predicate FirstBoundary(s: seq<Scalar>, from: nat, k: nat) {
    Boundary(s, k) && from <= k <= |Encode(s)| && forall b | from <= b < k :: !Boundary(s, b)
  }

  ghost predicate LastBoundary(s: seq<Scalar>, upto: nat, k: nat) {
    Boundary(s, k) && k <= upto && forall b | k < b <= upto :: !Boundary(s, b)
  }

  function Min(a: nat, b: nat): nat { if a < b then a else b }

  /** What a chunk is: from the first boundary at or after the offset to the last one within the limit. */
  ghost predicate IsChunk(s: seq<Scalar>, offset: nat, limit: nat, c: Chunk) {
    exists i: nat, j: nat :: i <= j <= |s| && ChunkAt(s, offset, limit, c, i, j)
  }

  ghost predicate ChunkAt(s: seq<Scalar>, offset: nat, limit: nat, c: Chunk, i: nat, j: nat)
    requires i <= j <= |s|
  {
    && c.total == |Encode(s)| && c.start == At(s, i) && c.text == s[i..j]
    && FirstBoundary(s, Min(offset, c.total), c.start)
    && LastBoundary(s, Min(c.total, c.start + limit), At(s, j))
    && c.next == if At(s, j) < c.total then Some(At(s, j)) else None
  }

  /** `_patch_chunk`, for a limit that passed validation. */
  method PatchChunk(s: seq<Scalar>, offset: nat, limit: nat) returns (c: Chunk)
    requires MIN_PATCH_CHUNK <= limit <= MAX_PATCH_CHUNK
    ensures IsChunk(s, offset, limit, c)
  {
    hide Encode, EncodeOne, Decode, Boundary;
    var encoded := Encode(s);
    var total := |encoded|;
    EndIsBoundary(s);
    var start := Min(offset, total);
    while start < total && start > 0 && IsContinuation(encoded[start])
      invariant Min(offset, total) <= start <= total
      invariant forall b | Min(offset, total) <= b < start :: !Boundary(s, b)
    {
      BoundaryIff(s, start);
      start := start + 1;
    }
    if start < total { BoundaryIff(s, start); }
    var end := Min(total, start + limit);
    while end > start && end < total && IsContinuation(encoded[end])
      invariant start <= end <= Min(total, start + limit)
      invariant forall b | end < b <= Min(total, start + limit) :: !Boundary(s, b)
    {
      BoundaryIff(s, end);
      end := end - 1;
    }
    if start < end < total { BoundaryIff(s, end); }
    ghost var i, j := Cut(s, start, end);
    SliceIsEncoded(s, i, j);
    DecodeEncode(s[i..j]);
    c := Chunk(Decode(encoded[start..end]).value, start, total, if end < total then Some(end) else None);
    assert ChunkAt(s, offset, limit, c, i, j);
  }

  lemma Cut(s: seq<Scalar>, start: nat, end: nat) returns (i: nat, j: nat)
    requires Boundary(s, start) && Boundary(s, end) && start <= end
    ensures i <= j <= |s| && At(s, i) == start && At(s, j) == end
  {
    hide Encode;
    i :| i <= |s| && At(s, i) == start;
    j :| j <= |s| && At(s, j) == end;
    if j < i { AtMonotone(s, j, i); }
  }

  /** A chunk that is not the last is non-empty, whole and within its limit. */
  lemma ChunkIsBounded(s: seq<Scalar>, offset: nat, limit: nat, c: Chunk)
    requires limit >= MIN_PATCH_CHUNK && IsChunk(s, offset, limit, c)
    ensures |Encode(c.text)| <= limit
    ensures c.next.Some? ==> c.text != [] && c.next.value == c.start + |Encode(c.text)| && c.next.value > offset
  {
    hide Encode, EncodeOne, Boundary;
    var i: nat, j: nat :| i <= j <= |s| && ChunkAt(s, offset, limit, c, i, j);
    SliceIsEncoded(s, i, j);
    if c.next.Some? {
      var next := NextBoundary(s, c.start);
      assert next <= Min(c.total, c.start + limit);
      assert At(s, j) >= next;
    }
  }

  // ---- a chain of chunks ----

  /** Chunks read by following `next_patch_offset` from 0, with any valid limits. */
  ghost predicate IsChain(s: seq<Scalar>, limits: nat -> nat, chunks: seq<Chunk>) {
    && chunks != [] && IsChunk(s, 0, limits(0), chunks[0])
    && forall k: nat {:trigger Follows(s, limits, chunks, k)} | 0 < k < |chunks| :: Follows(s, limits, chunks, k)
  }

  ghost predicate Follows(s: seq<Scalar>, limits: nat -> nat, chunks: seq<Chunk>, k: nat)
    requires 0 < k < |chunks|
  {
    chunks[k - 1].next.Some? && IsChunk(s, chunks[k - 1].next.value, limits(k), chunks[k])
  }

  function Texts(chunks: seq<Chunk>): seq<Scalar> {
    if chunks == [] then [] else Texts(chunks[..|chunks| - 1]) + chunks[|chunks| - 1].text
  }

  ghost predicate ValidLimits(limits: nat -> nat) { forall k: nat :: limits(k) >= MIN_PATCH_CHUNK }

  /** A boundary is its own first boundary, so a continuation starts exactly where the last chunk ended. */
  lemma StartsThere(s: seq<Scalar>, i: nat, k: nat)
    requires i <= |s| && FirstBoundary(s, At(s, i), k)
    ensures k == At(s, i)
  {
    hide Encode;
    assert Boundary(s, At(s, i));
  }

  lemma SamePlace(s: seq<Scalar>, i: nat, j: nat)
    requires i <= |s| && j <= |s| && At(s, i) == At(s, j)
    ensures i == j
  {
    hide At;
    if i < j { AtMonotone(s, i, j); } else if j < i { AtMonotone(s, j, i); }
  }

  /** After k chunks exactly the first j code points were returned, at least one by each continued chunk. */
  lemma {:induction false} ChainIsPrefix(s: seq<Scalar>, limits: nat -> nat, chunks: seq<Chunk>,
                                         k: nat) returns (j: nat)
    requires ValidLimits(limits) && IsChain(s, limits, chunks) && 1 <= k <= |chunks|
    ensures j <= |s| && Texts(chunks[..k]) == s[..j]
    ensures chunks[k - 1].next == if At(s, j) < |Encode(s)| then Some(At(s, j)) else None
    ensures chunks[k - 1].next.Some? ==> j >= k
    ensures k > 1 ==> j >= k - 1
  {
    hide Encode, EncodeOne, Boundary;
    assert chunks[..k][..k - 1] == chunks[..k - 1];
    if k == 1 {
      var c := chunks[0];
      ChunkIsBounded(s, 0, limits(0), c);
      var i: nat, e: nat :| i <= e <= |s| && ChunkAt(s, 0, limits(0), c, i, e);
      AtEnds(s);
      StartsThere(s, 0, c.start);
      SamePlace(s, i, 0);
      j := e;
      assert chunks[..1][..0] == [] && s[0..e] == s[..e];
    } else {
      var before := ChainIsPrefix(s, limits, chunks, k - 1);
      assert Follows(s, limits, chunks, k - 1);
      var c, offset := chunks[k - 1], chunks[k - 2].next.value;
      ChunkIsBounded(s, offset, limits(k - 1), c);
      var i: nat, e: nat :| i <= e <= |s| && ChunkAt(s, offset, limits(k - 1), c, i, e);
      StartsThere(s, before, c.start);
      SamePlace(s, i, before);
      j := e;
      assert s[..before] + s[before..e] == s[..e];
    }
  }

  /**
   Following the chain to its end returns the patch, and the end comes within as many chunks as it
   has code points.
   */
  lemma ChainIsWholePatch(s: seq<Scalar>, limits: nat -> nat, chunks: seq<Chunk>)
    requires ValidLimits(limits) && IsChain(s, limits, chunks)
    ensures chunks[|chunks| - 1].next.None? ==> Texts(chunks) == s
    ensures |chunks| <= 1 + |s|
    ensures chunks[|chunks| - 1].next.Some? ==> |chunks| <= |s|
  {
    hide Encode, EncodeOne, IsChain;
    ChainNonEmpty(s, limits, chunks);
    var n := |chunks|;
    var j := ChainIsPrefix(s, limits, chunks, n);
    assert chunks[..n] == chunks;
    AtEnds(s);
    if j < |s| { AtMonotone(s, j, |s|); }
    assert s[..|s|] == s;
  }

  lemma ChainNonEmpty(s: seq<Scalar>, limits: nat -> nat, chunks: seq<Chunk>)
    requires IsChain(s, limits, chunks)
    ensures chunks != []
  {}
}
