/**
 The pruned search of triage/assign.py for the group a new cluster joins: an inverted
 path index and the size filter replace the comparison with every group.
 */
module GroupSearch {
  import opened Order
  import opened Models
  import opened Jaccard

  type PathSets = set<set<string>>

  /** A path set of the new cluster next to a path set known for group `gid`. */
  ghost predicate Pair(known: map<string, PathSets>, sets: PathSets, gid: string, mine: set<string>,
                       theirs: set<string>) {
    gid in known && mine in sets && theirs in known[gid]
  }

  /**
   `gid` attains the maximum Jaccard over all groups, it reaches 18/25, and no smaller id attains it;
   intersections over unions are compared by their cross products.
   */
  ghost predicate BestBy(known: map<string, PathSets>, sets: PathSets, gid: string, mine: set<string>,
                         theirs: set<string>) {
    && Pair(known, sets, gid, mine, theirs)
    && mine != {} && theirs != {} && 25 * |mine * theirs| >= 18 * |mine + theirs|
    && forall g, f, o {:trigger Pair(known, sets, g, f, o)} | Pair(known, sets, g, f, o) && f + o != {} ::
         && |f * o| * |mine + theirs| <= |mine * theirs| * |f + o|
         && (|f * o| * |mine + theirs| == |mine * theirs| * |f + o| ==> StringLe(gid, g))
  }

  /** The same, as the code compares. */
  ghost predicate Highest(known: map<string, PathSets>, sets: PathSets, gid: string, mine: set<string>,
                          theirs: set<string>) {
    && Pair(known, sets, gid, mine, theirs) && Similar(mine, theirs)
    && forall g, f, o {:trigger Pair(known, sets, g, f, o)} | Pair(known, sets, g, f, o) ::
         && FileJaccard(f, o) <= FileJaccard(mine, theirs)
         && (FileJaccard(f, o) == FileJaccard(mine, theirs) ==> StringLe(gid, g))
  }

  lemma BestByIsHighest(known: map<string, PathSets>, sets: PathSets, gid: string, mine: set<string>,
                        theirs: set<string>)
    ensures BestBy(known, sets, gid, mine, theirs) <==> Highest(known, sets, gid, mine, theirs)
  {
    hide FileJaccard;
    if Pair(known, sets, gid, mine, theirs) && Similar(mine, theirs) {
      assert mine + theirs != {} by { CardLe(mine, mine + theirs); }
      SimilarIsConfirmed(mine, theirs);
      forall g, f, o | Pair(known, sets, g, f, o) && f + o != {}
        ensures FileJaccard(f, o) <= FileJaccard(mine, theirs) <==>
                  |f * o| * |mine + theirs| <= |mine * theirs| * |f + o|
        ensures FileJaccard(f, o) == FileJaccard(mine, theirs) <==>
                  |f * o| * |mine + theirs| == |mine * theirs| * |f + o|
      {
        NotAboveIff(f, o, mine, theirs);
        NotAboveIff(mine, theirs, f, o);
      }
      forall g, f, o | Pair(known, sets, g, f, o) && f + o == {}
        ensures FileJaccard(f, o) < FileJaccard(mine, theirs)
      {
        EmptySetsAreZero(f, o);
      }
    }
  }

  lemma EmptySetsAreZero(f: set<string>, o: set<string>)
    requires f + o == {}
    ensures FileJaccard(f, o) == 0.0
  {
    assert f == {};
  }

  ghost predicate IsBest(known: map<string, PathSets>, sets: PathSets, gid: string) {
    exists mine, theirs :: BestBy(known, sets, gid, mine, theirs)
  }

  ghost predicate NoneSimilar(known: map<string, PathSets>, sets: PathSets) {
    forall g, f, o | Pair(known, sets, g, f, o) :: !Similar(f, o)
  }

  /** The result of exhaustive search. */
  ghost function BestGroup(known: map<string, PathSets>, sets: PathSets): Option<string> {
    if exists g :: IsBest(known, sets, g) then (var g :| IsBest(known, sets, g); Some(g)) else None
  }

  lemma BestIsUnique(known: map<string, PathSets>, sets: PathSets, g: string, h: string)
    requires IsBest(known, sets, g) && IsBest(known, sets, h)
    ensures g == h
  {
    StringTotal();
    var f, o :| BestBy(known, sets, g, f, o);
    var f', o' :| BestBy(known, sets, h, f', o');
    BestByIsHighest(known, sets, g, f, o);
    BestByIsHighest(known, sets, h, f', o');
    assert Pair(known, sets, g, f, o) && Pair(known, sets, h, f', o');
  }

  lemma BestGroupIs(known: map<string, PathSets>, sets: PathSets, choice: Option<string>)
    requires choice.Some? ==> IsBest(known, sets, choice.value)
    requires choice.None? ==> NoneSimilar(known, sets)
    ensures BestGroup(known, sets) == choice
  {
    if choice.Some? {
      var g :| IsBest(known, sets, g) && BestGroup(known, sets) == Some(g);
      BestIsUnique(known, sets, g, choice.value);
    } else {
      forall g, f, o ensures !BestBy(known, sets, g, f, o) {}
    }
  }

  ghost predicate Extends(known: map<string, PathSets>, known': map<string, PathSets>, sets: PathSets) {
    && known.Keys == known'.Keys
    && (forall g | g in known :: known[g] <= known'[g])
    && (forall g, f, o | Pair(known', sets, g, f, o) && !Pair(known, sets, g, f, o) :: !Similar(f, o))
  }

  lemma BelowConfirm(f: set<string>, o: set<string>)
    ensures Similar(f, o) <==> FileJaccard(f, o) >= CONFIRM
  {
    SimilarIsConfirmed(f, o);
  }

  /** Path sets below the threshold, added to any group, change no search result. */
  lemma DissimilarSetsDoNotMatter(known: map<string, PathSets>, known': map<string, PathSets>, sets: PathSets,
                                  gid: string)
    requires Extends(known, known', sets)
    ensures IsBest(known, sets, gid) <==> IsBest(known', sets, gid)
    ensures NoneSimilar(known, sets) <==> NoneSimilar(known', sets)
  {
    forall f, o ensures Similar(f, o) <==> FileJaccard(f, o) >= CONFIRM { BelowConfirm(f, o); }
    forall g, f, o | Pair(known, sets, g, f, o) ensures Pair(known', sets, g, f, o) {}
    if IsBest(known, sets, gid) {
      var f, o :| BestBy(known, sets, gid, f, o);
      BestByIsHighest(known, sets, gid, f, o);
      BestByIsHighest(known', sets, gid, f, o);
      assert BestBy(known', sets, gid, f, o);
    }
    if IsBest(known', sets, gid) {
      var f, o :| BestBy(known', sets, gid, f, o);
      BestByIsHighest(known, sets, gid, f, o);
      BestByIsHighest(known', sets, gid, f, o);
      assert Pair(known, sets, gid, f, o);
      assert BestBy(known, sets, gid, f, o);
    }
  }

  lemma BestGroupStable(known: map<string, PathSets>, known': map<string, PathSets>, sets: PathSets)
    requires Extends(known, known', sets)
    ensures BestGroup(known, sets) == BestGroup(known', sets)
  {
    forall g
      ensures IsBest(known, sets, g) <==> IsBest(known', sets, g)
    {
      DissimilarSetsDoNotMatter(known, known', sets, g);
    }
    if g, h :| IsBest(known, sets, g) && IsBest(known, sets, h) && g != h {
      BestIsUnique(known, sets, g, h);
    }
  }

  // ---- the search with its index ----

  function AsSet(s: seq<set<string>>): PathSets { set x | x in s }

  ghost function AsKnown(lists: map<string, seq<set<string>>>): map<string, PathSets> {
    map g | g in lists :: AsSet(lists[g])
  }

  function Lookup(index: map<string, set<string>>, path: string): set<string> {
    if path in index then index[path] else {}
  }

  /** `path_to_groups` lists a group under every path of its known path sets. */
  ghost predicate GroupIndex(index: map<string, set<string>>, lists: map<string, seq<set<string>>>) {
    forall path, g :: g in Lookup(index, path) <==> g in lists && exists s :: s in lists[g] && path in s
  }

  ghost predicate Offered(sets: seq<set<string>>, index: map<string, set<string>>, g: string) {
    exists s, path :: s in sets && path in s && g in Lookup(index, path)
  }

  method CandidateGroups(sets: seq<set<string>>, index: map<string, set<string>>) returns (candidates: set<string>)
    ensures forall g :: g in candidates <==> Offered(sets, index, g)
  {
    candidates := {};
    for i := 0 to |sets|
      invariant forall g :: g in candidates <==> Offered(sets[..i], index, g)
    {
      var seen := sets[..i + 1];
      var found := set path, g | path in sets[i] && g in Lookup(index, path) :: g;
      forall g
        ensures g in candidates + found <==> Offered(seen, index, g)
      {
        assert seen == sets[..i] + [sets[i]];
        if g in candidates {
          var s, path :| s in sets[..i] && path in s && g in Lookup(index, path);
          assert s in seen;
        }
        if g in found {
          var path :| path in sets[i] && g in Lookup(index, path);
          assert sets[i] in seen;
        }
        if Offered(seen, index, g) {
          var s, path :| s in seen && path in s && g in Lookup(index, path);
          assert s in sets[..i] || s == sets[i];
        }
      }
      candidates := candidates + found;
    }
    assert sets[..|sets|] == sets;
  }

  /** The comparison of `assign_incremental`: skip by size, otherwise keep a strictly larger value. */
  method Compare(mine: set<string>, theirs: set<string>, gid: string, best: Option<string>, bestJaccard: real)
    returns (best': Option<string>, bestJaccard': real)
    requires mine != {}
    ensures bestJaccard' >= bestJaccard
    ensures bestJaccard' == bestJaccard ==> best' == best
    ensures bestJaccard' > bestJaccard ==> best' == Some(gid) && bestJaccard' == FileJaccard(mine, theirs)
    ensures Similar(mine, theirs) ==> FileJaccard(mine, theirs) <= bestJaccard'
  {
    best', bestJaccard' := best, bestJaccard;
    var m, n := |mine|, |theirs|;
    if (if m < n then m else n) as real / (if m < n then n else m) as real < CONFIRM {
      if Similar(mine, theirs) { SizeFilterIsLossless(mine, theirs); }
      return;
    }
    var similarity := FileJaccard(mine, theirs);
    if similarity > bestJaccard {
      best', bestJaccard' := Some(gid), similarity;
    }
  }

  /** All pairs of the cluster with one group. */
  method CompareGroup(sets: seq<set<string>>, olds: seq<set<string>>, gid: string, best: Option<string>,
                      bestJaccard: real)
    returns (best': Option<string>, bestJaccard': real)
    requires {} !in sets
    ensures bestJaccard' >= bestJaccard
    ensures bestJaccard' == bestJaccard ==> best' == best
    ensures bestJaccard' > bestJaccard ==>
              best' == Some(gid) && exists f, o :: f in sets && o in olds && FileJaccard(f, o) == bestJaccard'
    ensures forall f, o | f in sets && o in olds && Similar(f, o) :: FileJaccard(f, o) <= bestJaccard'
  {
    best', bestJaccard' := best, bestJaccard;
    for i := 0 to |sets|
      invariant bestJaccard' >= bestJaccard
      invariant bestJaccard' == bestJaccard ==> best' == best
      invariant bestJaccard' > bestJaccard ==>
                  best' == Some(gid) && exists f, o :: f in sets && o in olds && FileJaccard(f, o) == bestJaccard'
      invariant forall f, o | f in sets[..i] && o in olds && Similar(f, o) :: FileJaccard(f, o) <= bestJaccard'
    {
      for j := 0 to |olds|
        invariant bestJaccard' >= bestJaccard
        invariant bestJaccard' == bestJaccard ==> best' == best
        invariant bestJaccard' > bestJaccard ==>
                    best' == Some(gid) && exists f, o :: f in sets && o in olds && FileJaccard(f, o) == bestJaccard'
        invariant forall f, o | f in sets[..i] && o in olds && Similar(f, o) :: FileJaccard(f, o) <= bestJaccard'
        invariant forall o | o in olds[..j] && Similar(sets[i], o) :: FileJaccard(sets[i], o) <= bestJaccard'
      {
        assert sets[i] in sets && olds[j] in olds;
        assert olds[..j + 1] == olds[..j] + [olds[j]];
        best', bestJaccard' := Compare(sets[i], olds[j], gid, best', bestJaccard');
      }
      assert olds[..|olds|] == olds;
      assert sets[..i + 1] == sets[..i] + [sets[i]];
    }
    assert sets[..|sets|] == sets;
  }

  /** `best` is the smallest of the groups `done` that attains their maximum `bestJaccard`. */
  ghost predicate Searched(lists: map<string, seq<set<string>>>, sets: seq<set<string>>, done: seq<string>,
                           best: Option<string>, bestJaccard: real)
    requires forall g | g in done :: g in lists
  {
    && bestJaccard >= 0.0 && (best.None? ==> bestJaccard == 0.0)
    && (best.Some? ==> best.value in done
                       && exists f, o :: f in sets && o in lists[best.value] && FileJaccard(f, o) == bestJaccard)
    && forall g, f, o | g in done && f in sets && o in lists[g] && Similar(f, o) ::
         FileJaccard(f, o) <= bestJaccard
         && (FileJaccard(f, o) == bestJaccard ==> best.Some? && StringLe(best.value, g))
  }

  lemma SearchedStep(lists: map<string, seq<set<string>>>, sets: seq<set<string>>, done: seq<string>, gid: string,
                     best: Option<string>, bestJaccard: real, best': Option<string>, bestJaccard': real)
    requires gid in lists && forall g | g in done :: g in lists && StringLe(g, gid)
    requires Searched(lists, sets, done, best, bestJaccard)
    requires bestJaccard' >= bestJaccard && (bestJaccard' == bestJaccard ==> best' == best)
    requires bestJaccard' > bestJaccard ==>
               best' == Some(gid) && exists f, o :: f in sets && o in lists[gid] && FileJaccard(f, o) == bestJaccard'
    requires forall f, o | f in sets && o in lists[gid] && Similar(f, o) :: FileJaccard(f, o) <= bestJaccard'
    ensures Searched(lists, sets, done + [gid], best', bestJaccard')
  {
    StringTotal();
    assert StringLe(gid, gid);
    forall g, f, o | g in done + [gid] && f in sets && o in lists[g] && Similar(f, o)
      ensures FileJaccard(f, o) <= bestJaccard'
      ensures FileJaccard(f, o) == bestJaccard' ==> best'.Some? && StringLe(best'.value, g)
    {
      SimilarIsConfirmed(f, o);
    }
  }

  /** Every similar group shares a path with the cluster, so the index offers it. */
  lemma SimilarIsCandidate(index: map<string, set<string>>, lists: map<string, seq<set<string>>>,
                           sets: seq<set<string>>, g: string, f: set<string>, o: set<string>)
    requires GroupIndex(index, lists) && g in lists && f in sets && o in lists[g] && Similar(f, o)
    ensures Offered(sets, index, g)
  {
    assert f * o != {} by {
      if f * o == {} { CardLe(f, f + o); }
    }
    var path :| path in f * o;
    assert g in Lookup(index, path);
  }

  lemma SearchedIsBest(lists: map<string, seq<set<string>>>, sets: seq<set<string>>, done: seq<string>,
                       best: Option<string>, bestJaccard: real)
    requires forall g | g in done :: g in lists
    requires Searched(lists, sets, done, best, bestJaccard)
    requires forall g, f, o | g in lists && f in sets && o in lists[g] && Similar(f, o) :: g in done
    ensures BestGroup(AsKnown(lists), AsSet(sets)) == if bestJaccard >= CONFIRM then best else None
    ensures bestJaccard < CONFIRM <==> NoneSimilar(AsKnown(lists), AsSet(sets))
  {
    var known, s := AsKnown(lists), AsSet(sets);
    forall f, o ensures Similar(f, o) <==> FileJaccard(f, o) >= CONFIRM { SimilarIsConfirmed(f, o); }
    if bestJaccard >= CONFIRM {
      var f, o :| f in sets && o in lists[best.value] && FileJaccard(f, o) == bestJaccard;
      assert Pair(known, s, best.value, f, o);
      BestByIsHighest(known, s, best.value, f, o);
      assert BestBy(known, s, best.value, f, o);
    }
    BestGroupIs(known, s, if bestJaccard >= CONFIRM then best else None);
  }

  method CompareGroups(sets: seq<set<string>>, lists: map<string, seq<set<string>>>, order: seq<string>)
    returns (best: Option<string>, bestJaccard: real)
    requires {} !in sets && forall g | g in order :: g in lists
    requires forall i, j | 0 <= i < j < |order| :: StringLe(order[i], order[j])
    ensures Searched(lists, sets, order, best, bestJaccard)
  {
    best, bestJaccard := None, 0.0;
    for k := 0 to |order|
      invariant Searched(lists, sets, order[..k], best, bestJaccard)
    {
      assert order[..k + 1] == order[..k] + [order[k]];
      assert order[k] in order;
      ghost var best0, bestJaccard0 := best, bestJaccard;
      best, bestJaccard := CompareGroup(sets, lists[order[k]], order[k], best, bestJaccard);
      SearchedStep(lists, sets, order[..k], order[k], best0, bestJaccard0, best, bestJaccard);
    }
    assert order[..|order|] == order;
  }

  /** The pruned search: equal to exhaustive search over all groups and all pairs. */
  method FindBest(sets: seq<set<string>>, lists: map<string, seq<set<string>>>, index: map<string, set<string>>)
    returns (choice: Option<string>)
    requires {} !in sets && GroupIndex(index, lists)
    ensures choice == BestGroup(AsKnown(lists), AsSet(sets))
    ensures choice.None? <==> NoneSimilar(AsKnown(lists), AsSet(sets))
  {
    hide Similar, NoneSimilar, IsBest, Lookup;
    var candidates := CandidateGroups(sets, index);
    forall g | g in candidates
      ensures g in lists
    {
      var s, path :| s in sets && path in s && g in Lookup(index, path);
    }
    var order := SortedStrings(candidates);
    var best, bestJaccard := CompareGroups(sets, lists, order);
    forall g, f, o | g in lists && f in sets && o in lists[g] && Similar(f, o)
      ensures g in order
    {
      SimilarIsCandidate(index, lists, sets, g, f, o);
    }
    SearchedIsBest(lists, sets, order, best, bestJaccard);
    choice := if best.Some? && bestJaccard >= CONFIRM then best else None;
  }
}
