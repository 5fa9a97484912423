/** Counting the members of a table that satisfy a predicate, and adding up a
    table of counters. */
module Counting {

  ghost function Select<K, V>(m: map<K, V>, p: V -> bool): set<K> {
    set k | k in m && p(m[k])
  }

  ghost function Count<K, V>(m: map<K, V>, p: V -> bool): nat {
    |Select(m, p)|
  }

  function One(b: bool): nat {
    if b then 1 else 0
  }

  /** `fetch_sub(1)` on a 64-bit unsigned counter. */
  function WrappingDec(n: nat): nat {
    if n == 0 then 0xFFFF_FFFF_FFFF_FFFF else n - 1
  }

  lemma CountUpdate<K, V>(m: map<K, V>, k: K, v: V, p: V -> bool)
    ensures Count(m[k := v], p) == Count(m, p) - One(k in m && p(m[k])) + One(p(v))
  {
    var before := Select(m, p);
    assert Select(m[k := v], p) == if p(v) then before + {k} else before - {k};
    assert k in before <==> k in m && p(m[k]);
  }

  lemma CountRemove<K, V>(m: map<K, V>, k: K, p: V -> bool)
    requires k in m
    ensures Count(m - {k}, p) == Count(m, p) - One(p(m[k]))
  {
    assert Select(m - {k}, p) == Select(m, p) - {k};
  }

  /** A stronger predicate holds of no more members. */
  lemma CountMono<K, V>(m: map<K, V>, p: V -> bool, q: V -> bool)
    requires forall k <- m :: p(m[k]) ==> q(m[k])
    ensures Count(m, p) <= Count(m, q) <= |m|
  {
    SubsetSize(Select(m, p), Select(m, q));
    SubsetSize(Select(m, q), m.Keys);
  }

  lemma SubsetSize<T>(a: set<T>, b: set<T>)
    requires a <= b
    ensures |a| <= |b|
  {
    assert b == a + (b - a);
  }

  /** What `p` counts and `q` does not is covered by `r`. */
  lemma CountCover<K, V>(m: map<K, V>, p: V -> bool, q: V -> bool, r: V -> bool)
    requires forall k <- m :: p(m[k]) ==> q(m[k]) || r(m[k])
    ensures Count(m, p) <= Count(m, q) + Count(m, r)
  {
    SubsetSize(Select(m, p), Select(m, q) + Select(m, r));
  }

  lemma CountPositive<K, V>(m: map<K, V>, k: K, p: V -> bool)
    requires k in m && p(m[k])
    ensures Count(m, p) > 0
  {
    assert k in Select(m, p);
  }

  lemma CountNone<K, V>(m: map<K, V>, p: V -> bool)
    requires forall k <- m :: !p(m[k])
    ensures Count(m, p) == 0
  {
    assert Select(m, p) == {};
  }

  // ----- tables of counters

  function At<K>(m: map<K, nat>, k: K): nat {
    if k in m then m[k] else 0
  }

  ghost function Sum<K>(m: map<K, nat>): nat
    decreases |m|
  {
    if m == map[] then 0 else
    var k :| k in m;
    m[k] + Sum(m - {k})
  }

  /** The sum does not depend on which key is taken off first. */
  lemma {:induction false} SumPick<K>(m: map<K, nat>, k: K)
    requires k in m
    ensures Sum(m) == m[k] + Sum(m - {k})
    decreases |m|
  {
    var first :| first in m && Sum(m) == m[first] + Sum(m - {first});
    if first != k {
      SumPick(m - {first}, k);
      SumPick(m - {k}, first);
      assert m - {first} - {k} == m - {k} - {first};
    }
  }

  lemma SumUpdate<K>(m: map<K, nat>, k: K, n: nat)
    ensures Sum(m[k := n]) == Sum(m) - At(m, k) + n
  {
    SumPick(m[k := n], k);
    assert m[k := n] - {k} == m - {k};
    if k in m {
      SumPick(m, k);
    } else {
      assert m - {k} == m;
    }
  }

  lemma SumRemove<K>(m: map<K, nat>, k: K)
    ensures Sum(m - {k}) == Sum(m) - At(m, k)
  {
    if k in m {
      SumPick(m, k);
    } else {
      assert m - {k} == m;
    }
  }

  lemma {:induction false} SumMono<K>(a: map<K, nat>, b: map<K, nat>)
    requires a.Keys == b.Keys && forall k <- a :: a[k] <= b[k]
    ensures Sum(a) <= Sum(b)
    decreases |a|
  {
    if a == map[] {
      assert b == map[];
    } else {
      var k :| k in a;
      SumPick(a, k);
      SumPick(b, k);
      SumMono(a - {k}, b - {k});
    }
  }
}
