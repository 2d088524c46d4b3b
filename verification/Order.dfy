/**
 Total orders and the sorted enumeration of a finite set: the model of Python's
 `sorted` over keys that decide every comparison.
 */
module Order {

  ghost predicate TotalOn<T(!new)>(le: (T, T) -> bool, s: set<T>) {
    && (forall x, y {:trigger le(x, y)} | x in s && y in s :: le(x, y) || le(y, x))
    && (forall x, y {:trigger le(x, y)} | x in s && y in s && le(x, y) && le(y, x) :: x == y)
    && (forall x, y, z {:trigger le(x, y), le(y, z)}
          | x in s && y in s && z in s && le(x, y) && le(y, z) :: le(x, z))
  }

  predicate IsLeast<T(==, !new)>(m: T, s: set<T>, le: (T, T) -> bool) {
    m in s && forall x | x in s :: le(m, x)
  }

  lemma {:induction false} LeastExists<T(!new)>(s: set<T>, le: (T, T) -> bool)
    requires s != {} && TotalOn(le, s)
    ensures exists m :: IsLeast(m, s, le)
  {
    var a :| a in s;
    var rest := s - {a};
    if rest == {} {
      assert le(a, a);
      forall x | x in s ensures le(a, x) { assert x !in rest; }
      assert IsLeast(a, s, le);
    } else {
      LeastExists(rest, le);
      var b :| IsLeast(b, rest, le);
      var m := if le(a, b) then a else b;
      forall x | x in s
        ensures le(m, x)
      {
        if x != a {
          assert le(b, x);
        } else {
          assert le(a, a);
        }
      }
      assert IsLeast(m, s, le);
    }
  }

  function Least<T(==, !new)>(s: set<T>, le: (T, T) -> bool): (m: T)
    requires s != {} && TotalOn(le, s)
    ensures IsLeast(m, s, le)
  {
    LeastExists(s, le);
    assert forall m, n | IsLeast(m, s, le) && IsLeast(n, s, le) :: m == n by {
      forall m, n | IsLeast(m, s, le) && IsLeast(n, s, le) ensures m == n { assert le(m, n) && le(n, m); }
    }
    var m :| m in s && IsLeast(m, s, le);
    m
  }

  /** The elements of `s`, each once, in the order of `le`. */
  function Ordered<T(==, !new)>(s: set<T>, le: (T, T) -> bool): (r: seq<T>)
    requires TotalOn(le, s)
    ensures |r| == |s| && forall x :: x in r <==> x in s
    ensures forall i, j | 0 <= i < j < |r| :: r[i] != r[j] && le(r[i], r[j])
    decreases s
  {
    if s == {} then [] else
      var m := Least(s, le);
      var rest := Ordered(s - {m}, le);
      [m] + rest
  }

  /** Two orders that agree on `s` list it the same way. */
  lemma {:induction false} OrderedUnique<T(!new)>(s: set<T>, le: (T, T) -> bool, r: seq<T>)
    requires TotalOn(le, s)
    requires forall x :: x in r <==> x in s
    requires forall i, j | 0 <= i < j < |r| :: r[i] != r[j] && le(r[i], r[j])
    ensures r == Ordered(s, le)
    decreases s
  {
    if r == [] {
      assert s == {};
    } else {
      assert r[0] in r;
      var m := Least(s, le);
      assert m in r;
      assert r[0] in s;
      assert r[0] == m;
      var tail := r[1..];
      assert r == [m] + tail;
      forall x
        ensures x in tail <==> x in s - {m}
      {
        if x in tail { var i :| 0 <= i < |tail| && tail[i] == x; assert r[i + 1] == x; }
        if x in s - {m} { assert x in r; }
      }
      OrderedUnique(s - {m}, le, tail);
    }
  }

  /** Python's comparison of tuples, and of strings as tuples of code points. */
  predicate Lex<T(==)>(le: (T, T) -> bool, a: seq<T>, b: seq<T>) {
    if a == [] then true
    else if b == [] then false
    else if a[0] == b[0] then Lex(le, a[1..], b[1..])
    else le(a[0], b[0])
  }

  /** `le` is a total order on the whole type. */
  ghost predicate Total<T(!new)>(le: (T, T) -> bool) {
    && (forall x, y :: le(x, y) || le(y, x))
    && (forall x, y | le(x, y) && le(y, x) :: x == y)
    && (forall x, y, z | le(x, y) && le(y, z) :: le(x, z))
  }

  lemma {:induction false} LexTotalPair<T(!new)>(le: (T, T) -> bool, a: seq<T>, b: seq<T>)
    requires Total(le)
    ensures Lex(le, a, b) || Lex(le, b, a)
    ensures Lex(le, a, b) && Lex(le, b, a) ==> a == b
  {
    if a != [] && b != [] && a[0] == b[0] {
      LexTotalPair(le, a[1..], b[1..]);
      assert a == [a[0]] + a[1..] && b == [b[0]] + b[1..];
    }
  }

  lemma {:induction false} LexTransitive<T(!new)>(le: (T, T) -> bool, a: seq<T>, b: seq<T>, c: seq<T>)
    requires Total(le) && Lex(le, a, b) && Lex(le, b, c)
    ensures Lex(le, a, c)
  {
    if a != [] && b != [] && c != [] && a[0] == b[0] == c[0] {
      LexTransitive(le, a[1..], b[1..], c[1..]);
    }
  }

  lemma LexTotal<T(!new)>(le: (T, T) -> bool)
    requires Total(le)
    ensures Total((a: seq<T>, b: seq<T>) => Lex(le, a, b))
  {
    forall a, b
      ensures Lex(le, a, b) || Lex(le, b, a)
      ensures Lex(le, a, b) && Lex(le, b, a) ==> a == b
    {
      LexTotalPair(le, a, b);
    }
    forall a, b, c | Lex(le, a, b) && Lex(le, b, c)
      ensures Lex(le, a, c)
    {
      LexTransitive(le, a, b, c);
    }
  }

  predicate CharLe(a: char, b: char) { a <= b }

  predicate StringLe(a: string, b: string) { Lex(CharLe, a, b) }

  lemma StringTotal()
    ensures Total(StringLe)
  {
    LexTotal(CharLe);
    var le := (a: string, b: string) => Lex(CharLe, a, b);
    assert Total(le);
    forall a, b
      ensures StringLe(a, b) || StringLe(b, a)
      ensures StringLe(a, b) && StringLe(b, a) ==> a == b
    {
      assert le(a, b) == StringLe(a, b) && le(b, a) == StringLe(b, a);
    }
    forall a, b, c | StringLe(a, b) && StringLe(b, c)
      ensures StringLe(a, c)
    {
      assert le(a, b) && le(b, c) && le(a, c) == StringLe(a, c);
    }
  }

  /** `sorted(strings)`. */
  function SortedStrings(s: set<string>): (r: seq<string>)
    ensures |r| == |s| && forall x :: x in r <==> x in s
    ensures forall i, j | 0 <= i < j < |r| :: r[i] != r[j] && StringLe(r[i], r[j])
  {
    StringTotal();
    Ordered(s, StringLe)
  }

  predicate IntLe(a: int, b: int) { a <= b }

  /** `sorted(numbers)` of distinct numbers. */
  function SortedInts(s: set<int>): (r: seq<int>)
    ensures |r| == |s| && forall x :: x in r <==> x in s
    ensures forall i, j | 0 <= i < j < |r| :: r[i] < r[j]
  {
    Ordered(s, IntLe)
  }
}
