/**
 Set similarity of triage/cluster.py, and why the prefix filter and the size filter
 of the similarity join lose no qualifying pair.
 */
module Jaccard {
  import opened Order

  const CONFIRM: real := 0.72

  function FileJaccard(a: set<string>, b: set<string>): (j: real)
    ensures 0.0 <= j <= 1.0
  {
    if a == {} || b == {} then 0.0 else
      var inter := |a * b|;
      assert a * b <= a && |a * b| <= |a| by { CardLe(a * b, a); }
      assert |a * b| <= |b| by { CardLe(a * b, b); }
      inter as real / (|a| + |b| - inter) as real
  }

  /** The cheap size bound. */
  predicate CanReachThreshold(m: nat, n: nat) {
    m != 0 && n != 0 &&
    (if m < n then m else n) as real / (if m < n then n else m) as real >= CONFIRM
  }

  /** Two non-empty path sets whose Jaccard index is at least 18/25. */
  predicate Similar(a: set<string>, b: set<string>) {
    a != {} && b != {} && 25 * |a * b| >= 18 * |a + b|
  }

  lemma {:induction false} CardLe<T>(a: set<T>, b: set<T>)
    requires a <= b
    ensures |a| <= |b|
    ensures |a| == |b| ==> a == b
  {
    if a != {} {
      var x :| x in a;
      CardLe(a - {x}, b - {x});
    }
  }

  lemma QuotientAtLeast(x: real, y: real, c: real)
    requires y > 0.0
    ensures x / y >= c <==> x >= c * y
  {
    var r := x / y;
    assert x == r * y;
    assert x - c * y == (r - c) * y;
  }

  lemma RatioAtLeast(p: nat, q: nat)
    requires q > 0
    ensures p as real / q as real >= CONFIRM <==> 25 * p >= 18 * q
  {
    QuotientAtLeast(p as real, q as real, CONFIRM);
  }

  lemma SimilarIsConfirmed(a: set<string>, b: set<string>)
    ensures Similar(a, b) <==> FileJaccard(a, b) >= CONFIRM
  {
    if a != {} && b != {} {
      assert |a + b| == |a| + |b| - |a * b|;
      CardLe(a, a + b);
      RatioAtLeast(|a * b|, |a + b|);
    }
  }

  /** On sets that are not both empty the index is the quotient of the intersection by the union. */
  lemma JaccardIsQuotient(a: set<string>, b: set<string>)
    requires a + b != {}
    ensures FileJaccard(a, b) * |a + b| as real == |a * b| as real
  {
    if a != {} && b != {} {
      assert |a + b| == |a| + |b| - |a * b|;
      CardLe(a, a + b);
    } else {
      assert a * b == {};
    }
  }

  /** Two indices compare as their cross-multiplied cardinalities. */
  predicate NotAbove(a: set<string>, b: set<string>, c: set<string>, d: set<string>) {
    |a * b| * |c + d| <= |c * d| * |a + b|
  }

  lemma NotAboveIff(a: set<string>, b: set<string>, c: set<string>, d: set<string>)
    requires a + b != {} && c + d != {}
    ensures FileJaccard(a, b) <= FileJaccard(c, d) <==> NotAbove(a, b, c, d)
  {
    hide FileJaccard;
    JaccardIsQuotient(a, b);
    JaccardIsQuotient(c, d);
    assert |a + b| > 0 && |c + d| > 0;
    CrossCompare(FileJaccard(a, b), FileJaccard(c, d), |a * b|, |a + b|, |c * d|, |c + d|);
  }

  lemma CrossCompare(j: real, k: real, p: nat, q: nat, x: nat, y: nat)
    requires q > 0 && y > 0 && j * q as real == p as real && k * y as real == x as real
    ensures j <= k <==> p * y <= x * q
  {
    var z := q as real * y as real;
    ScaledCompare(j, k, z);
    ProductsAgree(j, q, y, p);
    ProductsAgree(k, y, q, x);
    assert y as real * q as real == z;
  }

  lemma ProductsAgree(j: real, q: nat, y: nat, p: nat)
    requires j * q as real == p as real
    ensures j * (q as real * y as real) == (p * y) as real
  {
    assert j * (q as real * y as real) == (j * q as real) * y as real;
  }

  lemma ScaledCompare(j: real, k: real, z: real)
    requires z > 0.0
    ensures j <= k <==> j * z <= k * z
  {
    assert (k - j) * z == k * z - j * z;
  }

  lemma SimilarSymmetric(a: set<string>, b: set<string>)
    ensures Similar(a, b) <==> Similar(b, a)
    ensures FileJaccard(a, b) == FileJaccard(b, a)
  {
    assert a * b == b * a && a + b == b + a;
  }

  lemma EqualSetsAreSimilar(a: set<string>)
    requires a != {}
    ensures Similar(a, a)
  {
    assert a * a == a && a + a == a;
  }

  /** The size filter rejects no qualifying pair. */
  lemma SizeFilterIsLossless(a: set<string>, b: set<string>)
    requires Similar(a, b)
    ensures CanReachThreshold(|a|, |b|)
  {
    CardLe(a * b, a);
    CardLe(a * b, b);
    CardLe(a, a + b);
    CardLe(b, a + b);
    var small, large := if |a| < |b| then |a| else |b|, if |a| < |b| then |b| else |a|;
    RatioAtLeast(small, large);
  }

  // ---- prefix filtering ----

  function Frequency(frequency: map<string, nat>, path: string): nat {
    if path in frequency then frequency[path] else 0
  }

  /** The sort key `(path_frequency[path], path)`. */
  predicate RarerOrEqual(frequency: map<string, nat>, p: string, q: string) {
    Frequency(frequency, p) < Frequency(frequency, q)
    || (Frequency(frequency, p) == Frequency(frequency, q) && StringLe(p, q))
  }

  lemma RarityTotal(frequency: map<string, nat>)
    ensures Total((p, q) => RarerOrEqual(frequency, p, q))
  {
    StringTotal();
  }

  lemma RarityAntisymmetric(frequency: map<string, nat>, p: string, q: string)
    requires RarerOrEqual(frequency, p, q) && RarerOrEqual(frequency, q, p)
    ensures p == q
  {
    StringTotal();
  }

  function ByRarity(frequency: map<string, nat>, paths: set<string>): (r: seq<string>)
    ensures |r| == |paths| && forall x :: x in r <==> x in paths
    ensures forall i, j | 0 <= i < j < |r| :: r[i] != r[j] && RarerOrEqual(frequency, r[i], r[j])
  {
    RarityTotal(frequency);
    Ordered(paths, (p, q) => RarerOrEqual(frequency, p, q))
  }

  /** `len(paths) - ceil(0.72 * len(paths)) + 1`. */
  function PrefixLength(n: nat): (k: nat)
    requires n > 0
    ensures 1 <= k <= n
  {
    n - (18 * n + 24) / 25 + 1
  }

  /** The prefix leaves out one path less than the least number that is 18/25 of the paths or more. */
  lemma PrefixIs(n: nat)
    requires n > 0
    ensures var left := n - PrefixLength(n) + 1; 25 * left >= 18 * n && 25 * (left - 1) < 18 * n
  {}

  function Prefix(frequency: map<string, nat>, paths: set<string>): seq<string>
    requires paths != {}
  {
    ByRarity(frequency, paths)[..PrefixLength(|paths|)]
  }

  /** At most n - i of the n sorted elements lie at or after position i. */
  lemma TailCount(s: seq<string>, i: nat, common: set<string>)
    requires i <= |s| && forall x | x in common :: x in s[i..]
    ensures |common| <= |s| - i
  {
    var tail := s[i..];
    SeqSetCard(tail);
    CardLe(common, set x | x in tail);
  }

  lemma {:induction false} SeqSetCard(s: seq<string>)
    ensures |set x | x in s| <= |s|
  {
    if s != [] {
      SeqSetCard(s[1..]);
      assert (set x | x in s) == (set x | x in s[1..]) + {s[0]};
    }
  }

  /** The rarest common path of a similar pair lies in the prefix of either set. */
  lemma RarestCommonInPrefix(frequency: map<string, nat>, a: set<string>, b: set<string>, m: string)
    requires Similar(a, b)
    requires m in a * b && forall x | x in a * b :: RarerOrEqual(frequency, m, x)
    ensures m in Prefix(frequency, a)
  {
    var s := ByRarity(frequency, a);
    assert m in s;
    var i :| 0 <= i < |s| && s[i] == m;
    forall x | x in a * b
      ensures x in s[i..]
    {
      assert x in s;
      var j :| 0 <= j < |s| && s[j] == x;
      assert j >= i by { if j < i { RarityAntisymmetric(frequency, s[j], m); } }
      assert s[i..][j - i] == x;
    }
    TailCount(s, i, a * b);
    CardLe(a, a + b);
    assert i < PrefixLength(|a|);
    assert s[..PrefixLength(|a|)][i] == m;
  }

  /** Prefix filtering: every qualifying pair shares a path of both prefixes. */
  lemma PrefixFilterIsLossless(frequency: map<string, nat>, a: set<string>, b: set<string>)
    requires Similar(a, b)
    ensures exists p :: p in Prefix(frequency, a) && p in Prefix(frequency, b)
  {
    RarityTotal(frequency);
    var le := (p, q) => RarerOrEqual(frequency, p, q);
    CardLe(a, a + b);
    assert a * b != {};
    var m := Least(a * b, le);
    assert forall x | x in a * b :: le(m, x);
    SimilarSymmetric(a, b);
    assert a * b == b * a;
    RarestCommonInPrefix(frequency, a, b, m);
    RarestCommonInPrefix(frequency, b, a, m);
  }
}
