/** Integer division facts, int64 wrap-around and sums over maps. */
module Numbers {
  import opened Core

  lemma Multiple(k: int, p: int)
    requires k > 0
    ensures p >= 1 ==> k * p >= k
    ensures p <= -1 ==> k * p <= -k
  {
  }

  /** Quotient and remainder are unique. */
  lemma Divide(x: int, k: int, q: int, r: int)
    requires 0 <= r < k && x == k * q + r
    ensures x / k == q && x % k == r
  {
    var p := x / k - q;
    assert k * p == r - x % k by {
      assert x == k * (x / k) + x % k;
      assert k * p == k * (x / k) - k * q;
    }
    Multiple(k, p);
  }

  // ----- int64 wrap-around -----

  const TWO_64: int := 0x1_0000_0000_0000_0000

  /** The value Go's int64 arithmetic keeps of `x`. */
  function Wrap64(x: int): (r: int64) {
    (x - MIN_INT64) % TWO_64 + MIN_INT64
  }

  /** What is kept is in the range of int64 and differs by a multiple of 2^64. */
  lemma WrapCongruent(x: int)
    ensures -0x8000_0000_0000_0000 <= Wrap64(x) <= 0x7fff_ffff_ffff_ffff
    ensures (x - Wrap64(x)) % 0x1_0000_0000_0000_0000 == 0
  {
    var q := (x - MIN_INT64) / TWO_64;
    assert x - Wrap64(x) == TWO_64 * q;
    Divide(x - Wrap64(x), TWO_64, q, 0);
  }

  lemma WrapShift(x: int, k: int)
    ensures Wrap64(x + TWO_64 * k) == Wrap64(x)
  {
    var q, r := (x - MIN_INT64) / TWO_64, (x - MIN_INT64) % TWO_64;
    Divide(x + TWO_64 * k - MIN_INT64, TWO_64, q + k, r);
  }

  /** Wrapping early or late makes no difference to a sum. */
  lemma WrapAdd(x: int, y: int)
    ensures Wrap64(Wrap64(x) + y) == Wrap64(x + y)
    ensures Wrap64(Wrap64(x)) == Wrap64(x)
  {
    var q := (x - MIN_INT64) / TWO_64;
    assert Wrap64(x) == x - TWO_64 * q;
    WrapShift(x + y, -q);
    WrapShift(x, -q);
  }

  lemma WrapBoth(x: int, y: int)
    ensures Wrap64(Wrap64(x) + Wrap64(y)) == Wrap64(x + y)
  {
    WrapAdd(x, Wrap64(y));
    WrapAdd(y, x);
  }

  lemma WrapOfInt64(x: int64)
    ensures Wrap64(x) == x
  {
  }

  // ----- Sums over maps -----

  ghost function Sum<K(!new)>(m: map<K, int>): int {
    if m == map[] then 0
    else
      var k :| k in m;
      m[k] + Sum(m - {k})
  }

  /** Any key may be taken out first. */
  lemma {:induction false} SumWithout<K(!new)>(m: map<K, int>, k: K)
    requires k in m
    ensures Sum(m) == m[k] + Sum(m - {k})
    decreases |m|
  {
    var j :| j in m && Sum(m) == m[j] + Sum(m - {j});
    if j != k {
      assert |m - {j}| < |m| && |m - {k}| < |m|;
      SumWithout(m - {j}, k);
      SumWithout(m - {k}, j);
      assert m - {j} - {k} == m - {k} - {j};
    }
  }

  lemma SumEmpty<K(!new)>(m: map<K, int>)
    ensures m == map[] ==> Sum(m) == 0
  {
  }

  lemma SumPut<K(!new)>(m: map<K, int>, k: K, x: int)
    ensures Sum(m[k := x]) == Sum(m) - Get(m, k) + x
  {
    SumWithout(m[k := x], k);
    if k in m {
      SumWithout(m, k);
      assert m[k := x] - {k} == m - {k};
    } else {
      assert m[k := x] - {k} == m;
    }
  }

  // ----- Counting -----

  function Count<T(==)>(s: seq<T>, x: T): nat {
    multiset(s)[x]
  }

  lemma CountAppend<T>(s: seq<T>, y: T, x: T)
    ensures Count(s + [y], x) == Count(s, x) + if y == x then 1 else 0
    ensures Count([y] + s, x) == Count(s, x) + if y == x then 1 else 0
  {
    assert multiset(s + [y]) == multiset(s) + multiset{y};
    assert multiset([y] + s) == multiset{y} + multiset(s);
  }
}
