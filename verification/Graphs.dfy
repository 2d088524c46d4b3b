/** Connectivity of an undirected graph, as the existence of a walk. */
module Graphs {

  ghost predicate Walk<T(!new)>(edge: (T, T) -> bool, nodes: set<T>, w: seq<T>) {
    && w != []
    && (forall i | 0 <= i < |w| :: w[i] in nodes)
    && (forall i | 0 <= i < |w| - 1 :: edge(w[i], w[i + 1]))
  }

  ghost predicate WalkBetween<T(!new)>(edge: (T, T) -> bool, nodes: set<T>, w: seq<T>, x: T, y: T) {
    Walk(edge, nodes, w) && w[0] == x && w[|w| - 1] == y
  }

  ghost predicate Connected<T(!new)>(edge: (T, T) -> bool, nodes: set<T>, x: T, y: T) {
    exists w :: WalkBetween(edge, nodes, w, x, y)
  }

  ghost predicate Symmetric<T(!new)>(edge: (T, T) -> bool) {
    forall x, y :: edge(x, y) ==> edge(y, x)
  }

  ghost function Component<T(!new)>(edge: (T, T) -> bool, nodes: set<T>, x: T): set<T> {
    set y | y in nodes && Connected(edge, nodes, x, y)
  }

  lemma ConnectedReflexive<T(!new)>(edge: (T, T) -> bool, nodes: set<T>, x: T)
    requires x in nodes
    ensures Connected(edge, nodes, x, x)
  {
    assert WalkBetween(edge, nodes, [x], x, x);
  }

  lemma EdgeConnects<T(!new)>(edge: (T, T) -> bool, nodes: set<T>, x: T, y: T)
    requires x in nodes && y in nodes && edge(x, y)
    ensures Connected(edge, nodes, x, y)
  {
    assert WalkBetween(edge, nodes, [x, y], x, y);
  }

  lemma ConnectedTransitive<T(!new)>(edge: (T, T) -> bool, nodes: set<T>, x: T, y: T, z: T)
    requires Connected(edge, nodes, x, y) && Connected(edge, nodes, y, z)
    ensures Connected(edge, nodes, x, z)
  {
    var v :| WalkBetween(edge, nodes, v, x, y);
    var w :| WalkBetween(edge, nodes, w, y, z);
    var u := v + w[1..];
    forall i | 0 <= i < |u| - 1
      ensures edge(u[i], u[i + 1])
    {
      if i >= |v| - 1 {
        assert u[i] == w[i - (|v| - 1)];
        assert u[i + 1] == w[i + 1 - (|v| - 1)];
      }
    }
    assert WalkBetween(edge, nodes, u, x, z);
  }

  lemma {:induction false} ReverseWalk<T(!new)>(edge: (T, T) -> bool, nodes: set<T>, w: seq<T>, x: T, y: T)
    requires Symmetric(edge) && WalkBetween(edge, nodes, w, x, y)
    ensures Connected(edge, nodes, y, x)
    decreases |w|
  {
    if |w| == 1 {
      ConnectedReflexive(edge, nodes, x);
    } else {
      assert edge(w[0], w[1]);
      EdgeConnects(edge, nodes, w[1], x);
      var tail := w[1..];
      forall i | 0 <= i < |tail| - 1 ensures edge(tail[i], tail[i + 1]) { assert tail[i] == w[i + 1]; }
      ReverseWalk(edge, nodes, tail, w[1], y);
      ConnectedTransitive(edge, nodes, y, w[1], x);
    }
  }

  lemma ConnectedSymmetric<T(!new)>(edge: (T, T) -> bool, nodes: set<T>, x: T, y: T)
    requires Symmetric(edge) && Connected(edge, nodes, x, y)
    ensures Connected(edge, nodes, y, x)
  {
    var w :| WalkBetween(edge, nodes, w, x, y);
    ReverseWalk(edge, nodes, w, x, y);
  }

  /** Connected nodes lie in the same component, and components are disjoint or equal. */
  lemma ComponentsAgree<T(!new)>(edge: (T, T) -> bool, nodes: set<T>, x: T, y: T)
    requires Symmetric(edge) && Connected(edge, nodes, x, y)
    ensures Component(edge, nodes, x) == Component(edge, nodes, y)
  {
    ConnectedSymmetric(edge, nodes, x, y);
    forall z | z in nodes
      ensures z in Component(edge, nodes, x) <==> z in Component(edge, nodes, y)
    {
      if Connected(edge, nodes, x, z) { ConnectedTransitive(edge, nodes, y, x, z); }
      if Connected(edge, nodes, y, z) { ConnectedTransitive(edge, nodes, x, y, z); }
    }
  }

  /** `r` is an equivalence relation on `nodes`. */
  ghost predicate Equivalence<T(!new)>(r: (T, T) -> bool, nodes: set<T>) {
    && (forall x {:trigger r(x, x)} | x in nodes :: r(x, x))
    && (forall x, y {:trigger r(x, y)} | x in nodes && y in nodes && r(x, y) :: r(y, x))
    && (forall x, y, z {:trigger r(x, y), r(y, z)}
          | x in nodes && y in nodes && z in nodes && r(x, y) && r(y, z) :: r(x, z))
  }

  ghost function ConnectedBy<T(!new)>(edge: (T, T) -> bool, nodes: set<T>): (T, T) -> bool {
    (x, y) => Connected(edge, nodes, x, y)
  }

  lemma ConnectedIsEquivalence<T(!new)>(edge: (T, T) -> bool, nodes: set<T>)
    requires Symmetric(edge)
    ensures Equivalence(ConnectedBy(edge, nodes), nodes)
  {
    var r := ConnectedBy(edge, nodes);
    forall x | x in nodes ensures r(x, x) { ConnectedReflexive(edge, nodes, x); }
    forall x, y | x in nodes && y in nodes && r(x, y) ensures r(y, x) { ConnectedSymmetric(edge, nodes, x, y); }
    forall x, y, z | x in nodes && y in nodes && z in nodes && r(x, y) && r(y, z)
      ensures r(x, z)
    {
      ConnectedTransitive(edge, nodes, x, y, z);
    }
  }

  /** A partition into classes that no edge leaves contains connectivity. */
  lemma {:induction false} WalkStaysInClass<T(!new)>(edge: (T, T) -> bool, nodes: set<T>, rep: map<T, T>, w: seq<T>)
    requires rep.Keys == nodes && Walk(edge, nodes, w)
    requires forall x, y | x in nodes && y in nodes && edge(x, y) :: rep[x] == rep[y]
    ensures rep[w[0]] == rep[w[|w| - 1]]
    decreases |w|
  {
    if |w| > 1 {
      var tail := w[1..];
      forall i | 0 <= i < |tail| - 1 ensures edge(tail[i], tail[i + 1]) { assert tail[i] == w[i + 1]; }
      WalkStaysInClass(edge, nodes, rep, tail);
      assert edge(w[0], w[1]);
    }
  }
}
