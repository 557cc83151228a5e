/** Sequence utilities shared by the pipeline stages: duplicate removal in
    first-appearance order, positions, occurrence counts and subsequences. */
module Seqs {

  /** No element occurs twice. */
  predicate Distinct<T(==)>(s: seq<T>) {
    forall i, j :: 0 <= i < j < |s| ==> s[i] != s[j]
  }

  /** Strictly increasing, hence also distinct. */
  predicate StrictlyIncreasing(s: seq<nat>) {
    forall i, j :: 0 <= i < j < |s| ==> s[i] < s[j]
  }

  /** Position of the first occurrence of `x` in `s`. */
  function FirstIndex<T(==)>(s: seq<T>, x: T): (r: nat)
    requires x in s
    ensures r < |s| && s[r] == x
    ensures forall q :: 0 <= q < r ==> s[q] != x
  {
    if s[0] == x then 0 else 1 + FirstIndex(s[1..], x)
  }

  /** The distinct elements of `s`, each kept at its first occurrence, in order
      (what pandas' `unique()` returns). */
  function Dedup<T(==,!new)>(s: seq<T>): (u: seq<T>)
    ensures forall x :: x in u <==> x in s
    ensures |u| <= |s|
  {
    if |s| == 0 then []
    else
      var d := Dedup(s[..|s| - 1]);
      var x := s[|s| - 1];
      assert forall y :: y in s <==> y in s[..|s| - 1] || y == x;
      if x in d then d else d + [x]
  }

  /** `Dedup` keeps one copy of each element. */
  lemma {:induction false} DedupIsDistinct<T(!new)>(s: seq<T>)
    ensures Distinct(Dedup(s))
  {
    if |s| > 0 {
      DedupIsDistinct(s[..|s| - 1]);
    }
  }

  /** Dedup keeps first-appearance order: an element listed earlier occurs
      for the first time earlier in the input. */
  lemma {:induction false} DedupFirstAppearanceOrder<T(!new)>(s: seq<T>, i: nat, j: nat)
    requires i < j < |Dedup(s)|
    ensures FirstIndex(s, Dedup(s)[i]) < FirstIndex(s, Dedup(s)[j])
  {
    var n := |s|;
    var p := s[..n - 1];
    var d := Dedup(p);
    var u := Dedup(s);
    assert u[i] in s && u[j] in s;
    PrefixFirstIndex(s, u[i]);
    if j < |d| {
      assert u[i] == d[i] && u[j] == d[j];
      DedupFirstAppearanceOrder(p, i, j);
      PrefixFirstIndex(s, u[j]);
    } else {
      assert u[j] == s[n - 1] && u[j] !in p;
      assert FirstIndex(s, u[j]) == n - 1;
      assert u[i] == d[i] && u[i] in p;
    }
  }

  /** The first occurrence of an element of the prefix is found inside it. */
  lemma PrefixFirstIndex<T>(s: seq<T>, x: T)
    requires |s| > 0 && x in s
    ensures x in s[..|s| - 1] ==> FirstIndex(s, x) == FirstIndex(s[..|s| - 1], x)
  {
    var p := s[..|s| - 1];
    if x in p {
      var k := FirstIndex(p, x);
      assert p[k] == s[k];
      var f := FirstIndex(s, x);
      assert f <= k;
      assert p[f] == s[f];
    }
  }

  /** Number of occurrences of `x` in `s`. */
  function Count<T(==)>(s: seq<T>, x: T): nat {
    if |s| == 0 then 0 else Count(s[..|s| - 1], x) + (if s[|s| - 1] == x then 1 else 0)
  }

  /** `a` is obtained from `b` by deleting elements, keeping order. */
  predicate IsSubseq<T(==)>(a: seq<T>, b: seq<T>)
    decreases |b|
  {
    if a == [] then true
    else if b == [] then false
    else (a[|a| - 1] == b[|b| - 1] && IsSubseq(a[..|a| - 1], b[..|b| - 1])) || IsSubseq(a, b[..|b| - 1])
  }

  /** A key under which a map holds a given value. */
  lemma KeyOf<K, V>(m: map<K, V>, v: V) returns (k: K)
    requires v in m.Values
    ensures k in m && m[k] == v
  {
    k :| k in m && m[k] == v;
  }
}
