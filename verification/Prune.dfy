/**
 The bounded embedding cache of triage/rank.py: pruning always ends within every cap, drops
 the oldest records of a bucket first, and drops nothing that already fits.
 */
module Prune {
  import opened Order
  import opened Models

  const MAX_CACHE_BYTES: nat := 12 * 1024 * 1024
  const MAX_CACHE_ITEMS: nat := 512
  const MAX_CACHE_RESULTS: nat := 256

  /** The size of a cache without records, as it is written. */
  const EMPTY_CACHE_BYTES: nat := |"{\"schema_version\":2,\"items\":{},\"results\":{}}"|

  /** A record: its time stamps in nanoseconds, if it has them, and the size of its JSON. */
  datatype Record = Record(cachedAt: Option<nat>, createdAt: Option<nat>, bytes: nat)

  /** `_record_recency`. */
  function Recency(r: Record): nat {
    if r.cachedAt.Some? then r.cachedAt.value else if r.createdAt.Some? then r.createdAt.value else 0
  }

  type Bucket = map<string, Record>

  // ---- sizes ----

  function CharBytes(c: char): nat {
    var n := c as int;
    if c in {'"', '\\', '\n', '\r', '\t', '\U{0008}', '\U{000C}'} then 2
    else if n < 0x20 then 6
    else if n < 0x80 then 1
    else if n < 0x800 then 2
    else if n < 0x10000 then 3
    else 4
  }

  /** The size of a key as a JSON string in UTF-8, quotes included. */
  function KeyBytes(key: string): nat {
    if key == "" then 2 else KeyBytes(key[..|key| - 1]) + CharBytes(key[|key| - 1])
  }

  /** `_cache_entry_size`: key, colon, value and always one comma. */
  function EntryBytes(key: string, r: Record): nat { KeyBytes(key) + 2 + r.bytes }

  function FirstKey(m: Bucket): (k: string)
    requires m != map[]
    ensures k in m
  {
    StringTotal();
    Least(m.Keys, StringLe)
  }

  /** The estimate of one bucket. */
  function Estimate(m: Bucket): nat
    decreases |m|
  {
    if m == map[] then 0 else
      var k := FirstKey(m);
      EntryBytes(k, m[k]) + Estimate(m - {k})
  }

  /** The members of the JSON object as they are written: commas only between them. */
  function Written(m: Bucket): nat
    decreases |m|
  {
    if m == map[] then 0 else
      var k := FirstKey(m);
      KeyBytes(k) + 1 + m[k].bytes + (if |m| > 1 then 1 else 0) + Written(m - {k})
  }

  function CacheBytes(items: Bucket, results: Bucket): nat { EMPTY_CACHE_BYTES + Written(items) + Written(results) }

  function TotalEstimate(items: Bucket,
                         results: Bucket): nat { EMPTY_CACHE_BYTES + Estimate(items) + Estimate(results) }

  /** The estimate over-approximates what is written, by one comma for a bucket that is not empty. */
  lemma {:induction false} EstimateCovers(m: Bucket)
    ensures Estimate(m) == Written(m) + (if m == map[] then 0 else 1)
    decreases |m|
  {
    hide KeyBytes;
    if m != map[] {
      var k := FirstKey(m);
      EstimateCovers(m - {k});
      assert |m.Keys - {k}| == |m| - 1;
      assert (m - {k}).Keys == m.Keys - {k};
      if |m| > 1 { assert m - {k} != map[] by { assert |m - {k}| > 0; } } else { assert m - {k} == map[]; }
    }
  }

  /** The estimate does not depend on the order of the records. */
  lemma {:induction false} EstimateWithout(m: Bucket, key: string)
    requires key in m
    ensures Estimate(m) == EntryBytes(key, m[key]) + Estimate(m - {key})
    decreases |m|
  {
    hide EntryBytes;
    var k := FirstKey(m);
    if k != key {
      EstimateWithout(m - {k}, key);
      assert m - {k} - {key} == m - {key} - {k};
      FirstOfRest(m, key);
      assert (m - {key})[k] == m[k] && (m - {k})[key] == m[key];
    }
  }

  lemma FirstOfRest(m: Bucket, key: string)
    requires key in m && FirstKey(m) != key
    ensures m - {key} != map[] && FirstKey(m - {key}) == FirstKey(m)
  {
    var k, rest := FirstKey(m), m - {key};
    StringTotal();
    assert k in rest;
    var f := FirstKey(rest);
    assert f in m.Keys && StringLe(k, f) && StringLe(f, k);
  }

  // ---- age ----

  /** The order of `_drop_oldest`: by recency, then by key. */
  predicate OlderOrSame(m: Bucket, a: string, b: string)
    requires a in m && b in m
  {
    Recency(m[a]) < Recency(m[b]) || (Recency(m[a]) == Recency(m[b]) && StringLe(a, b))
  }

  /** `kept` is part of `all`, and every dropped record is older than every kept one. */
  ghost predicate KeepsNewest(all: Bucket, kept: Bucket) {
    && (forall k | k in kept :: k in all && kept[k] == all[k])
    && forall d, k | d in all && d !in kept && k in kept :: OlderOrSame(all, d, k)
  }

  ghost predicate IsOldest(m: Bucket, oldest: string) {
    oldest in m && forall k | k in m :: OlderOrSame(m, oldest, k)
  }

  lemma DropKeepsNewest(all: Bucket, kept: Bucket, oldest: string)
    requires KeepsNewest(all, kept) && IsOldest(kept, oldest)
    ensures KeepsNewest(all, kept - {oldest})
  {}

  lemma NewestIsTransitive(a: Bucket, b: Bucket, c: Bucket)
    requires KeepsNewest(a, b) && KeepsNewest(b, c)
    ensures KeepsNewest(a, c)
  {}

  /** The stamp of a record is no later than another's: `cached_at` counts, `created_at` only without it. */
  ghost predicate NoLater(a: Record, b: Record) {
    && (a.cachedAt.Some? && b.cachedAt.Some? ==> a.cachedAt.value <= b.cachedAt.value)
    && (a.cachedAt.Some? && b.cachedAt.None? && b.createdAt.Some? ==> a.cachedAt.value <= b.createdAt.value)
    && (a.cachedAt.None? && a.createdAt.Some? && b.cachedAt.Some? ==> a.createdAt.value <= b.cachedAt.value)
    && (a.cachedAt.None? && a.createdAt.Some? && b.cachedAt.None? && b.createdAt.Some? ==>
          a.createdAt.value <= b.createdAt.value)
    && (b.cachedAt.None? && b.createdAt.None? ==>
          (if a.cachedAt.Some? then a.cachedAt else a.createdAt) in {None, Some(0)})
  }

  /** No dropped record is newer than a kept one. */
  ghost predicate NoneNewer(all: Bucket, kept: Bucket) {
    forall d, k | d in all && d !in kept && k in kept :: NoLater(all[d], kept[k])
  }

  lemma DroppedIsNotNewer(all: Bucket, kept: Bucket)
    requires KeepsNewest(all, kept)
    ensures NoneNewer(all, kept)
  {}

  /** The newest records of a bucket, as many as the cap allows. */
  ghost predicate Capped(all: Bucket, kept: Bucket, cap: nat) {
    KeepsNewest(all, kept) && |kept| == if |all| <= cap then |all| else cap
  }

  /** Which records those are is determined. */
  lemma CappedIsDetermined(all: Bucket, a: Bucket, b: Bucket, cap: nat)
    requires Capped(all, a, cap) && Capped(all, b, cap)
    ensures a == b
  {
    hide Recency, StringLe;
    if x :| x in a && x !in b {
      NotWithin(a, b, x);
      var y :| y in b && y !in a;
      KeyPair(x, y);
    } else if y :| y in b && y !in a {
      NotWithin(b, a, y);
    }
    assert a.Keys == b.Keys;
  }

  lemma NotWithin(a: Bucket, b: Bucket, x: string)
    requires |a| == |b| && x in a && x !in b
    ensures exists y :: y in b && y !in a
  {
    if forall y | y in b :: y in a { FewerWithout(b.Keys, a.Keys, x); }
  }

  lemma FewerWithout(part: set<string>, all: set<string>, x: string)
    requires part <= all && x in all && x !in part
    ensures |part| < |all|
  {
    SmallerSet(part, all - {x});
    assert |all - {x}| == |all| - 1;
  }

  // ---- the records of both buckets ----

  datatype Slot = Slot(isItem: bool, key: string)

  /** The order of the final sort: recency, bucket, key. */
  predicate SlotLe(items: Bucket, results: Bucket, a: Slot, b: Slot)
    requires HasSlot(items, results, a) && HasSlot(items, results, b)
  {
    var r, r' := Recency(AtSlot(items, results, a)), Recency(AtSlot(items, results, b));
    r < r' || (r == r' && (if a.isItem == b.isItem then StringLe(a.key, b.key) else a.isItem))
  }

  predicate HasSlot(items: Bucket, results: Bucket, s: Slot) { if s.isItem then s.key in items else s.key in results }

  function AtSlot(items: Bucket, results: Bucket, s: Slot): Record
    requires HasSlot(items, results, s)
  {
    if s.isItem then items[s.key] else results[s.key]
  }

  function Slots(items: Bucket, results: Bucket): set<Slot> {
    (set k | k in items :: Slot(true, k)) + (set k | k in results :: Slot(false, k))
  }

  function SlotOrder(items: Bucket, results: Bucket): (Slot, Slot) -> bool {
    (a: Slot, b: Slot) =>
      HasSlot(items, results, a) && HasSlot(items, results, b) && SlotLe(items, results, a, b)
  }

  lemma KeyPair(a: string, b: string)
    ensures StringLe(a, b) || StringLe(b, a)
    ensures StringLe(a, b) && StringLe(b, a) ==> a == b
  {
    LexTotalPair(CharLe, a, b);
  }

  lemma KeyTransitive(a: string, b: string, c: string)
    ensures StringLe(a, b) && StringLe(b, c) ==> StringLe(a, c)
  {
    if StringLe(a, b) && StringLe(b, c) { LexTransitive(CharLe, a, b, c); }
  }

  lemma SlotOrderTotal(items: Bucket, results: Bucket)
    ensures TotalOn(SlotOrder(items, results), Slots(items, results))
  {
    hide StringLe, Recency;
    var le, all := SlotOrder(items, results), Slots(items, results);
    forall a, b | a in all && b in all
      ensures le(a, b) || le(b, a)
      ensures le(a, b) && le(b, a) ==> a == b
    {
      KeyPair(a.key, b.key);
      assert HasSlot(items, results, a) && HasSlot(items, results, b);
    }
    forall a, b, c | a in all && b in all && c in all && le(a, b) && le(b, c)
      ensures le(a, c)
    {
      KeyTransitive(a.key, b.key, c.key);
    }
  }

  function OldestFirst(items: Bucket, results: Bucket): (order: seq<Slot>)
    ensures forall s :: s in order <==> HasSlot(items, results, s)
    ensures forall i, j | 0 <= i < j < |order| :: order[i] != order[j] && SlotOrder(items, results)(order[i], order[j])
  {
    SlotOrderTotal(items, results);
    var order := Ordered(Slots(items, results), SlotOrder(items, results));
    assert forall s :: s in order <==> s in Slots(items, results);
    order
  }

  function Gone(order: seq<Slot>, n: nat): set<Slot>
    requires n <= |order|
  {
    set s | s in order[..n]
  }

  /** What is left once some slots are gone. */
  function LeftItems(items: Bucket,
                     gone: set<Slot>): Bucket { map k | k in items && Slot(true, k) !in gone :: items[k] }

  function LeftResults(results: Bucket,
                       gone: set<Slot>): Bucket { map k | k in results && Slot(false, k) !in gone :: results[k] }

  lemma OneMoreGone(items: Bucket, results: Bucket, gone: set<Slot>, s: Slot)
    ensures LeftItems(items, gone + {s}) ==
            if s.isItem then LeftItems(items, gone) - {s.key} else LeftItems(items, gone)
    ensures LeftResults(results, gone + {s}) ==
            if s.isItem then LeftResults(results, gone) else LeftResults(results, gone) - {s.key}
  {}

  lemma NextGone(order: seq<Slot>, n: nat)
    requires n < |order| && forall i, j | 0 <= i < j < |order| :: order[i] != order[j]
    ensures Gone(order, n + 1) == Gone(order, n) + {order[n]} && order[n] !in Gone(order, n)
  {
    assert order[..n + 1] == order[..n] + [order[n]];
  }

  /** Dropping a front part of the oldest-first order keeps the newest of each bucket. */
  lemma LeftKeepsNewest(items: Bucket, results: Bucket, n: nat)
    requires n <= |OldestFirst(items, results)|
    ensures var gone := Gone(OldestFirst(items, results), n);
            KeepsNewest(items, LeftItems(items, gone)) && KeepsNewest(results, LeftResults(results, gone))
  {
    hide OldestFirst, StringLe, Recency;
    var gone := Gone(OldestFirst(items, results), n);
    forall d, k | d in items && d !in LeftItems(items, gone) && k in LeftItems(items, gone)
      ensures OlderOrSame(items, d, k)
    {
      InOrder(items, results, n, Slot(true, d), Slot(true, k));
    }
    forall d, k | d in results && d !in LeftResults(results, gone) && k in LeftResults(results, gone)
      ensures OlderOrSame(results, d, k)
    {
      InOrder(items, results, n, Slot(false, d), Slot(false, k));
    }
  }

  lemma InOrder(items: Bucket, results: Bucket, n: nat, a: Slot, b: Slot)
    requires n <= |OldestFirst(items, results)|
    requires HasSlot(items, results, a) && HasSlot(items, results, b)
    requires a in Gone(OldestFirst(items, results), n) && b !in Gone(OldestFirst(items, results), n)
    ensures SlotLe(items, results, a, b)
  {
    hide SlotLe, HasSlot, OldestFirst;
    var order := OldestFirst(items, results);
    assert a in order[..n] && b in order && b !in order[..n];
    EarlierIsLess(order, n, a, b, SlotOrder(items, results));
  }

  lemma EarlierIsLess<T>(order: seq<T>, n: nat, a: T, b: T, le: (T, T) -> bool)
    requires n <= |order| && a in order[..n] && b in order && b !in order[..n]
    requires forall i, j | 0 <= i < j < |order| :: le(order[i], order[j])
    ensures le(a, b)
  {
    assert order == order[..n] + order[n..];
    var i :| 0 <= i < n && order[i] == a;
    var j :| 0 <= j < |order[n..]| && order[n..][j] == b;
    assert le(order[i], order[n + j]);
  }

  lemma AllGone(items: Bucket, results: Bucket)
    ensures var order := OldestFirst(items, results);
            LeftItems(items, Gone(order, |order|)) == map[] && LeftResults(results, Gone(order, |order|)) == map[]
  {
    hide OldestFirst;
    var order := OldestFirst(items, results);
    assert order[..|order|] == order;
    var gone := Gone(order, |order|);
    assert forall k | k in items :: HasSlot(items, results, Slot(true, k)) && Slot(true, k) in gone;
    assert forall k | k in results :: HasSlot(items, results, Slot(false, k)) && Slot(false, k) in gone;
  }

  lemma NothingGone(items: Bucket, results: Bucket, order: seq<Slot>)
    ensures LeftItems(items, Gone(order, 0)) == items && LeftResults(results, Gone(order, 0)) == results
  {}

  /** The oldest records of both buckets are gone, one after the other, until the rest fitted and no further. */
  ghost predicate DroppedUntil(items: Bucket, results: Bucket, items': Bucket, results': Bucket) {
    && TotalEstimate(items', results') <= MAX_CACHE_BYTES
    && exists n: nat :: StoppedAt(items, results, items', results', n)
  }

  ghost predicate StoppedAt(items: Bucket, results: Bucket, items': Bucket, results': Bucket, n: nat) {
    var order := OldestFirst(items, results);
    && n <= |order| && items' == LeftItems(items, Gone(order, n)) && results' == LeftResults(results, Gone(order, n))
    && (n > 0 ==> TotalEstimate(LeftItems(items, Gone(order, n - 1)),
                                LeftResults(results, Gone(order, n - 1))) > MAX_CACHE_BYTES)
  }

  /** The caps on the numbers of records first, then the cap on the size. */
  ghost predicate Pruned(items: Bucket, results: Bucket, items': Bucket, results': Bucket) {
    exists mid: Bucket, mid': Bucket ::
      Capped(items, mid, MAX_CACHE_ITEMS) && Capped(results, mid', MAX_CACHE_RESULTS)
        && DroppedUntil(mid, mid', items', results')
  }

  lemma DroppedKeepsNewest(items: Bucket, results: Bucket, items': Bucket, results': Bucket)
    requires DroppedUntil(items, results, items', results')
    ensures KeepsNewest(items, items') && KeepsNewest(results, results')
  {
    hide KeepsNewest, OldestFirst, LeftItems, LeftResults, Estimate;
    var n: nat :| StoppedAt(items, results, items', results', n);
    LeftKeepsNewest(items, results, n);
  }

  /** What fits already stays whole. */
  lemma FittingStays(items: Bucket, results: Bucket, items': Bucket, results': Bucket)
    requires DroppedUntil(items, results, items', results') && TotalEstimate(items, results) <= MAX_CACHE_BYTES
    ensures items' == items && results' == results
  {
    hide OldestFirst, LeftItems, LeftResults, Estimate, Gone;
    var n: nat :| StoppedAt(items, results, items', results', n);
    if n > 0 {
      EstimateFalls(items, results, n - 1);
    }
    NothingGone(items, results, OldestFirst(items, results));
  }

  lemma {:induction false} EstimateFalls(items: Bucket, results: Bucket, n: nat)
    requires n <= |OldestFirst(items, results)|
    ensures var order := OldestFirst(items, results);
            TotalEstimate(LeftItems(items, Gone(order, n)),
                          LeftResults(results, Gone(order, n))) <= TotalEstimate(items, results)
  {
    hide OldestFirst, LeftItems, LeftResults, Estimate, EntryBytes, Gone, SlotOrder;
    var order := OldestFirst(items, results);
    if n == 0 {
      NothingGone(items, results, order);
    } else {
      EstimateFalls(items, results, n - 1);
      NextGone(order, n - 1);
      var slot, gone := order[n - 1], Gone(order, n - 1);
      assert slot in order;
      StillThere(items, results, gone, slot);
      OneMoreGone(items, results, gone, slot);
      if slot.isItem {
        EstimateWithout(LeftItems(items, gone), slot.key);
      } else {
        EstimateWithout(LeftResults(results, gone), slot.key);
      }
    }
  }

  lemma StillThere(items: Bucket, results: Bucket, gone: set<Slot>, s: Slot)
    requires HasSlot(items, results, s) && s !in gone
    ensures HasSlot(LeftItems(items, gone), LeftResults(results, gone), s)
  {}

  // ---- the cache ----

  method FindOldest(m: Bucket) returns (oldest: string)
    requires m != map[]
    ensures oldest in m && IsOldest(m, oldest)
  {
    hide StringLe, SortedStrings, Recency;
    var keys := SortedStrings(m.Keys);
    oldest := keys[0];
    ghost var at := 0;
    KeyIsLeSelf(oldest);
    assert forall j | 0 <= j < |keys| :: keys[j] in m.Keys;
    for i := 1 to |keys|
      invariant 0 <= at < i && oldest == keys[at]
      invariant forall j | 0 <= j < i :: OlderOrSame(m, oldest, keys[j])
    {
      if Recency(m[keys[i]]) < Recency(m[oldest]) {
        oldest, at := keys[i], i;
        KeyIsLeSelf(oldest);
      }
    }
    forall k | k in m
      ensures OlderOrSame(m, oldest, k)
    {
      assert k in keys;
    }
  }

  lemma KeyIsLeSelf(k: string)
    ensures StringLe(k, k)
  {
    KeyPair(k, k);
  }

  class Cache {
    var items: Bucket
    var results: Bucket

    constructor (items: Bucket, results: Bucket)
      ensures this.items == items && this.results == results
    {
      this.items, this.results := items, results;
    }

    /** `while len(items) > MAX_CACHE_ITEMS: _drop_oldest(items)`, and the same for the results. */
    method DropExcess()
      modifies this
      ensures Capped(old(items), items, MAX_CACHE_ITEMS) && Capped(old(results), results, MAX_CACHE_RESULTS)
    {
      hide KeepsNewest, IsOldest;
      NothingDropped(items);
      NothingDropped(results);
      while |items| > MAX_CACHE_ITEMS
        invariant KeepsNewest(old(items), items) && results == old(results)
        invariant |items| == |old(items)| || MAX_CACHE_ITEMS <= |items| < |old(items)|
        decreases |items|
      {
        var oldest := FindOldest(items);
        DropKeepsNewest(old(items), items, oldest);
        DropIsSmaller(items, oldest);
        items := items - {oldest};
      }
      while |results| > MAX_CACHE_RESULTS
        invariant KeepsNewest(old(results), results) && Capped(old(items), items, MAX_CACHE_ITEMS)
        invariant |results| == |old(results)| || MAX_CACHE_RESULTS <= |results| < |old(results)|
        decreases |results|
      {
        var oldest := FindOldest(results);
        DropKeepsNewest(old(results), results, oldest);
        DropIsSmaller(results, oldest);
        results := results - {oldest};
      }
    }

    /** Deletes oldest records of either bucket until the estimate fits. */
    method DropUntilFits()
      modifies this
      ensures DroppedUntil(old(items), old(results), items, results)
    {
      hide KeepsNewest, Estimate, EntryBytes, SlotOrder, OldestFirst, LeftItems, LeftResults, Gone;
      var estimated: int := TotalEstimate(items, results);
      var order := OldestFirst(items, results);
      NothingGone(items, results, order);
      for i := 0 to |order|
        invariant StoppedAt(old(items), old(results), items, results, i)
        invariant estimated == TotalEstimate(items, results)
      {
        if estimated <= MAX_CACHE_BYTES {
          return;
        }
        var slot := order[i];
        NextGone(order, i);
        assert slot in order;
        StillThere(old(items), old(results), Gone(order, i), slot);
        OneMoreGone(old(items), old(results), Gone(order, i), slot);
        if slot.isItem {
          EstimateWithout(items, slot.key);
          estimated := estimated - EntryBytes(slot.key, items[slot.key]);
          items := items - {slot.key};
        } else {
          EstimateWithout(results, slot.key);
          estimated := estimated - EntryBytes(slot.key, results[slot.key]);
          results := results - {slot.key};
        }
      }
      AllGone(old(items), old(results));
      NoEstimate();
    }

    /** `_prune_cache`. */
    method PruneCache()
      modifies this
      ensures Pruned(old(items), old(results), items, results)
      ensures |items| <= MAX_CACHE_ITEMS && |results| <= MAX_CACHE_RESULTS
              && EMPTY_CACHE_BYTES + Written(items) + Written(results) <= MAX_CACHE_BYTES
      ensures KeepsNewest(old(items), items) && KeepsNewest(old(results), results)
      ensures NoneNewer(old(items), items) && NoneNewer(old(results), results)
      ensures |old(items)| <= MAX_CACHE_ITEMS && |old(results)| <= MAX_CACHE_RESULTS
              && TotalEstimate(old(items), old(results)) <= MAX_CACHE_BYTES ==>
                items == old(items) && results == old(results)
    {
      hide KeepsNewest, NoneNewer, Estimate, Written, DroppedUntil;
      DropExcess();
      label Mid:
      DropUntilFits();
      DroppedKeepsNewest(old@Mid(items), old@Mid(results), items, results);
      NewestIsTransitive(old(items), old@Mid(items), items);
      NewestIsTransitive(old(results), old@Mid(results), results);
      DroppedIsNotNewer(old(items), items);
      DroppedIsNotNewer(old(results), results);
      KeptIsSmaller(old@Mid(items), items);
      KeptIsSmaller(old@Mid(results), results);
      EstimateCovers(items);
      EstimateCovers(results);
      FitsWhenDropped(old@Mid(items), old@Mid(results), items, results);
      if |old(items)| <= MAX_CACHE_ITEMS && |old(results)| <= MAX_CACHE_RESULTS {
        WholeWithinCap(old(items), old@Mid(items), MAX_CACHE_ITEMS);
        WholeWithinCap(old(results), old@Mid(results), MAX_CACHE_RESULTS);
        if TotalEstimate(old(items), old(results)) <= MAX_CACHE_BYTES {
          FittingStays(old(items), old(results), items, results);
        }
      }
    }
  }

  lemma FitsWhenDropped(items: Bucket, results: Bucket, items': Bucket, results': Bucket)
    requires DroppedUntil(items, results, items', results')
    ensures TotalEstimate(items', results') <= MAX_CACHE_BYTES
  {}

  lemma WholeWithinCap(all: Bucket, kept: Bucket, cap: nat)
    requires Capped(all, kept, cap) && |all| <= cap
    ensures kept == all
  {
    NothingDropped(all);
    CappedIsDetermined(all, all, kept, cap);
  }

  lemma NothingDropped(m: Bucket)
    ensures KeepsNewest(m, m)
  {}

  lemma DropIsSmaller(m: Bucket, k: string)
    requires k in m
    ensures |m - {k}| == |m| - 1
  {
    assert (m - {k}).Keys == m.Keys - {k};
  }

  lemma {:induction false} SmallerSet(a: set<string>, b: set<string>)
    requires a <= b
    ensures |a| <= |b|
  {
    if a != {} {
      var x :| x in a;
      SmallerSet(a - {x}, b - {x});
    }
  }

  lemma KeptIsSmaller(all: Bucket, kept: Bucket)
    requires KeepsNewest(all, kept)
    ensures |kept| <= |all|
  {
    SmallerSet(kept.Keys, all.Keys);
  }

  lemma NoEstimate()
    ensures TotalEstimate(map[], map[]) <= MAX_CACHE_BYTES
  {}
}
