/**
 The disjoint-set forest of triage/unionfind.py: path halving and union by rank.

 `rep` is the partition the forest stands for: it maps every element to the root
 of its tree. All methods are specified on `rep`, so none of their contracts
 depends on the shape path halving leaves behind.
 */
module UnionFinds {

  function Pow2(n: nat): (p: nat)
    ensures p >= 1
  {
    if n == 0 then 1 else 2 * Pow2(n - 1)
  }

  lemma {:induction false} Pow2Monotone(m: nat, n: nat)
    requires m <= n
    ensures Pow2(m) <= Pow2(n)
  {
    if m < n { Pow2Monotone(m, n - 1); }
  }

  ghost function Class<T(!new)>(rep: map<T, T>, r: T): set<T> {
    set x | x in rep && rep[x] == r
  }

  /** What ties the entries of `x` in the two dictionaries of the source to the partition `rep`. */
  ghost predicate NodeOk<T(!new)>(parent: map<T, T>, rank: map<T, nat>, rep: map<T, T>, x: T)
    requires parent.Keys == rank.Keys == rep.Keys && x in parent
  {
    && parent[x] in parent && rep[x] in parent
    && rep[parent[x]] == rep[x]
    && (parent[x] == x <==> rep[x] == x)
    && rep[rep[x]] == rep[x]
    && rank[x] <= rank[parent[x]] <= rank[rep[x]]
    && (parent[x] != x ==> rank[x] < rank[parent[x]])
    && (parent[x] == x ==> Pow2(rank[x]) <= |Class(rep, x)|)
  }

  ghost predicate Forest<T(!new)>(parent: map<T, T>, rank: map<T, nat>, rep: map<T, T>) {
    && parent.Keys == rank.Keys == rep.Keys
    && forall x {:trigger NodeOk(parent, rank, rep, x)} | x in parent :: NodeOk(parent, rank, rep, x)
  }

  ghost predicate Distinct<T>(s: seq<T>) {
    s == [] || (s[|s| - 1] !in s[..|s| - 1] && Distinct(s[..|s| - 1]))
  }

  ghost predicate Enumerates<T(!new)>(order: seq<T>, parent: map<T, T>) {
    (set x | x in order) == parent.Keys && Distinct(order)
  }

  lemma EnumeratesAppend<T(!new)>(order: seq<T>, parent: map<T, T>, x: T)
    requires Enumerates(order, parent) && x !in parent
    ensures Enumerates(order + [x], parent[x := x])
  {
    assert (order + [x])[..|order|] == order;
    assert (set y | y in order + [x]) == parent.Keys + {x};
  }

  function Added<T(!new)>(rep: map<T, T>, x: T): map<T, T> {
    if x in rep then rep else rep[x := x]
  }

  /** The classes of `a` and `b` become one class with root `r`; every other class stays. */
  function Merged<T(!new)>(rep: map<T, T>, a: T, b: T, r: T): map<T, T>
    requires a in rep && b in rep
  {
    map x | x in rep :: if rep[x] == rep[a] || rep[x] == rep[b] then r else rep[x]
  }

  /** A root of rank r has at least 2^r members, so no rank exceeds log2 of the element count. */
  lemma RankIsLogarithmic<T(!new)>(parent: map<T, T>, rank: map<T, nat>, rep: map<T, T>, x: T)
    requires Forest(parent, rank, rep) && x in parent
    ensures rep[x] in rank && Pow2(rank[rep[x]]) <= |Class(rep, rep[x])| <= |parent|
    ensures Pow2(rank[x]) <= |parent|
  {
    var r := rep[x];
    assert NodeOk(parent, rank, rep, x);
    assert NodeOk(parent, rank, rep, r);
    assert Class(rep, r) <= rep.Keys;
    CardSubset(Class(rep, r), rep.Keys);
    Pow2Monotone(rank[x], rank[r]);
  }

  lemma {:induction false} CardSubset<T>(a: set<T>, b: set<T>)
    requires a <= b
    ensures |a| <= |b|
  {
    if a != {} {
      var x :| x in a;
      CardSubset(a - {x}, b - {x});
    }
  }

  lemma AddKeepsForest<T(!new)>(parent: map<T, T>, rank: map<T, nat>, rep: map<T, T>, x: T)
    requires Forest(parent, rank, rep) && x !in parent
    ensures Forest(parent[x := x], rank[x := 0], rep[x := x])
  {
    var parent', rank', rep' := parent[x := x], rank[x := 0], rep[x := x];
    forall y | y in parent'
      ensures NodeOk(parent', rank', rep', y)
    {
      if y == x {
        assert x in Class(rep', x);
      } else {
        assert NodeOk(parent, rank, rep, y);
        assert Class(rep', y) == Class(rep, y);
      }
    }
  }

  /** Path halving: pointing `x` at its grandparent leaves the partition and all ranks as they were. */
  lemma HalvingKeepsForest<T(!new)>(parent: map<T, T>, rank: map<T, nat>, rep: map<T, T>, x: T)
    requires Forest(parent, rank, rep) && x in parent && parent[x] != x
    ensures parent[x] in parent && parent[parent[x]] in parent
    ensures var g := parent[parent[x]];
            && Forest(parent[x := g], rank, rep) && rep[g] == rep[x]
            && rep[x] in rank && rank[x] < rank[g] <= rank[rep[x]]
  {
    var p := parent[x];
    assert NodeOk(parent, rank, rep, x);
    assert NodeOk(parent, rank, rep, p);
    var g := parent[p];
    assert NodeOk(parent, rank, rep, g);
    forall y | y in parent
      ensures NodeOk(parent[x := g], rank, rep, y)
    {
      assert NodeOk(parent, rank, rep, y);
    }
  }

  /** Linking root `child` below root `top` merges exactly the two classes. */
  lemma LinkKeepsForest<T(!new)>(parent: map<T, T>, rank: map<T, nat>, rep: map<T, T>, child: T, top: T)
    requires Forest(parent, rank, rep)
    requires child in parent && top in parent && child != top
    requires parent[child] == child && parent[top] == top
    requires rank[child] <= rank[top]
    ensures var rank' := if rank[child] == rank[top] then rank[top := rank[top] + 1] else rank;
            Forest(parent[child := top], rank', Merged(rep, child, top, top))
  {
    var parent' := parent[child := top];
    var rank' := if rank[child] == rank[top] then rank[top := rank[top] + 1] else rank;
    var rep' := Merged(rep, child, top, top);
    assert NodeOk(parent, rank, rep, child) && NodeOk(parent, rank, rep, top);
    assert Class(rep', top) == Class(rep, child) + Class(rep, top);
    assert Class(rep, child) !! Class(rep, top);
    forall x | x in parent'
      ensures NodeOk(parent', rank', rep', x)
    {
      assert NodeOk(parent, rank, rep, x);
      assert NodeOk(parent, rank, rep, parent[x]);
      assert NodeOk(parent, rank, rep, rep[x]);
      if x != child && x != top && parent[x] == x {
        assert Class(rep', x) == Class(rep, x);
      }
    }
  }

  /** The members of one class among the first `n` elements, in insertion order. */
  function Members<T(!new)>(order: seq<T>, n: nat, rep: map<T, T>, r: T): seq<T>
    requires n <= |order| && forall x | x in order :: x in rep
  {
    if n == 0 then [] else
      Members(order, n - 1, rep, r) + (if rep[order[n - 1]] == r then [order[n - 1]] else [])
  }

  /** The class roots of the first `n` elements, by first member seen. */
  function Roots<T(!new)>(order: seq<T>, n: nat, rep: map<T, T>): seq<T>
    requires n <= |order| && forall x | x in order :: x in rep
  {
    if n == 0 then [] else
      var before := Roots(order, n - 1, rep);
      if rep[order[n - 1]] in before then before else before + [rep[order[n - 1]]]
  }

  lemma {:induction false} MembersAreTheClass<T(!new)>(order: seq<T>, n: nat, rep: map<T, T>, r: T)
    requires n <= |order| && forall x | x in order :: x in rep
    ensures forall x :: x in Members(order, n, rep, r) <==> x in order[..n] && rep[x] == r
  {
    if n > 0 {
      MembersAreTheClass(order, n - 1, rep, r);
      assert order[..n] == order[..n - 1] + [order[n - 1]];
    }
  }

  lemma {:induction false} RootsAreDistinct<T(!new)>(order: seq<T>, n: nat, rep: map<T, T>)
    requires n <= |order| && forall x | x in order :: x in rep
    ensures forall x | x in order[..n] :: rep[x] in Roots(order, n, rep)
    ensures forall r | r in Roots(order, n, rep) :: Members(order, n, rep, r) != []
    ensures forall i, j | 0 <= i < j < |Roots(order, n, rep)| :: Roots(order, n, rep)[i] != Roots(order, n, rep)[j]
  {
    if n > 0 {
      RootsAreDistinct(order, n - 1, rep);
      assert order[..n] == order[..n - 1] + [order[n - 1]];
    }
  }

  lemma ListedAreKnown<T(!new)>(order: seq<T>, parent: map<T, T>, rank: map<T, nat>, rep: map<T, T>)
    requires Forest(parent, rank, rep) && Enumerates(order, parent)
    ensures forall x | x in order :: x in rep
  {
    forall x | x in order
      ensures x in rep
    {
      assert x in (set y | y in order);
    }
  }

  lemma RootIff<T(!new)>(parent: map<T, T>, rank: map<T, nat>, rep: map<T, T>, x: T)
    requires Forest(parent, rank, rep) && (x in parent || x in rep)
    ensures x in parent && x in rep && x in rank && rep[x] in parent && (parent[x] == x <==> rep[x] == x)
  {
    assert NodeOk(parent, rank, rep, x);
  }

  class UnionFind<T(==, !new)> {
    var order: seq<T>       // the keys of the parent dictionary in insertion order
    var parent: map<T, T>
    var rank: map<T, nat>
    ghost var rep: map<T, T>

    ghost predicate Valid()
      reads this
    {
      Forest(parent, rank, rep) && Enumerates(order, parent)
    }

    constructor ()
      ensures Valid() && rep == map[] && order == []
    {
      order, parent, rank, rep := [], map[], map[], map[];
    }

    method Add(x: T)
      requires Valid()
      modifies this
      ensures Valid() && rep == Added(old(rep), x)
      ensures order == old(order) + (if x in old(rep) then [] else [x])
      ensures x in old(rep) ==> parent == old(parent) && rank == old(rank)
      ensures x !in old(rep) ==> parent == old(parent)[x := x] && rank == old(rank)[x := 0]
    {
      if x !in parent {
        AddKeepsForest(parent, rank, rep, x);
        EnumeratesAppend(order, parent, x);
        parent := parent[x := x];
        rank := rank[x := 0];
        rep := rep[x := x];
        order := order + [x];
      }
    }

    /** The root of x's class; `moves` counts the iterations of the halving loop. */
    method Find(x: T) returns (r: T, ghost moves: nat)
      requires Valid()
      modifies this
      ensures Valid() && rep == Added(old(rep), x)
      ensures order == old(order) + (if x in old(rep) then [] else [x])
      ensures r in parent && r == rep[x] && parent[r] == r
      ensures x in old(rep) ==> rank == old(rank)
      ensures x !in old(rep) ==> rank == old(rank)[x := 0]
      ensures moves <= rank[r] && Pow2(moves) <= |parent|
    {
      if x !in parent {
        Add(x);
      }
      r := x;
      moves := 0;
      assert NodeOk(parent, rank, rep, x);
      ghost var start := rank;
      while parent[r] != r
        invariant Valid() && rep == Added(old(rep), x) && rank == start
        invariant order == old(order) + (if x in old(rep) then [] else [x])
        invariant r in parent && rep[r] == rep[x]
        invariant rep[x] in rank && moves <= rank[r] <= rank[rep[x]]
        decreases rank[rep[x]] - rank[r]
      {
        HalvingKeepsForest(parent, rank, rep, r);
        parent := parent[r := parent[parent[r]]];
        r := parent[r];
        moves := moves + 1;
      }
      assert NodeOk(parent, rank, rep, r);
      RankIsLogarithmic(parent, rank, rep, r);
      Pow2Monotone(moves, rank[r]);
    }

    /** Union by rank of two different roots. */
    method Link(ra: T, rb: T)
      requires Valid() && ra in parent && rb in parent && ra != rb
      requires parent[ra] == ra && parent[rb] == rb
      modifies this`parent, this`rank, this`rep
      ensures Valid()
      ensures rep == Merged(old(rep), ra, rb, if old(rank[ra] < rank[rb]) then rb else ra)
    {
      assert NodeOk(parent, rank, rep, ra) && NodeOk(parent, rank, rep, rb);
      if rank[ra] < rank[rb] {
        LinkKeepsForest(parent, rank, rep, ra, rb);
        parent := parent[ra := rb];
        rep := Merged(rep, ra, rb, rb);
      } else {
        LinkKeepsForest(parent, rank, rep, rb, ra);
        parent := parent[rb := ra];
        if rank[ra] == rank[rb] {
          rank := rank[ra := rank[ra] + 1];
        }
        rep := Merged(rep, rb, ra, ra);
      }
    }

    /** Merges exactly the classes of a and b. */
    method Union(a: T, b: T)
      requires Valid()
      modifies this
      ensures Valid()
      ensures var was := Added(Added(old(rep), a), b);
              && rep.Keys == was.Keys
              && rep == Merged(was, a, b, rep[a])
              && rep[a] in {was[a], was[b]}
      ensures order == old(order) + (if a in old(rep) then [] else [a])
                       + (if b in Added(old(rep), a) then [] else [b])
    {
      hide Forest, NodeOk, Enumerates;
      var ra, _ := Find(a);
      RootIff(parent, rank, rep, a);
      RootIff(parent, rank, rep, ra);
      var rb, _ := Find(b);
      RootIff(parent, rank, rep, a);
      RootIff(parent, rank, rep, b);
      RootIff(parent, rank, rep, ra);
      RootIff(parent, rank, rep, rb);
      if ra != rb {
        Link(ra, rb);
      }
    }

    /** Every class once, ordered by first-seen member, each class in insertion order. */
    method Components() returns (components: seq<seq<T>>)
      requires Valid()
      modifies this
      ensures Valid() && rep == old(rep) && order == old(order)
      ensures var roots := Roots(order, |order|, rep);
              && |components| == |roots|
              && forall i | 0 <= i < |roots| :: components[i] == Members(order, |order|, rep, roots[i])
    {
      hide Forest, NodeOk, Enumerates, Pow2;
      ghost var elements, classes := order, rep;
      ListedAreKnown(order, parent, rank, rep);
      var buckets: map<T, seq<T>> := map[];
      var roots: seq<T> := [];
      for i := 0 to |order|
        invariant Valid() && rep == classes && order == elements
        invariant roots == Roots(elements, i, classes)
        invariant forall r :: r in roots <==> r in buckets
        invariant forall r | r in buckets :: buckets[r] == Members(elements, i, classes, r)
      {
        var x := order[i];
        RootIff(parent, rank, rep, x);
        var root, _ := Find(x);
        if root !in buckets {
          assert root !in roots;
          UnseenRootHasNoMembers(elements, i, classes, root);
          buckets := buckets[root := []];
          roots := roots + [root];
        }
        buckets := buckets[root := buckets[root] + [x]];
      }
      components := seq(|roots|, i requires 0 <= i < |roots| => buckets[roots[i]]);
    }
  }

  lemma {:induction false} UnseenRootHasNoMembers<T(!new)>(order: seq<T>, n: nat, rep: map<T, T>, r: T)
    requires n <= |order| && forall x | x in order :: x in rep
    requires r !in Roots(order, n, rep)
    ensures Members(order, n, rep, r) == []
  {
    if n > 0 {
      UnseenRootHasNoMembers(order, n - 1, rep, r);
    }
  }
}
