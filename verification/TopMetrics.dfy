/** The ranking of metrics by points awarded. */
module TopMetrics {
  import opened Core
  import opened Numbers
  import Metrics

  datatype Entry = Entry(metric: Metric, points: int64)

  type Table = map<Metric, int64>

  predicate InTable(m: Table, x: Entry) {
    x.metric in m && m[x.metric] == x.points
  }

  predicate Descending(s: seq<Entry>) {
    forall i, j :: 0 <= i < j < |s| ==> s[i].points >= s[j].points
  }

  /** `s` holds every row of the table once. */
  ghost predicate Enumerates(s: seq<Entry>, m: Table) {
    && |s| == |m|
    && forall x :: multiset(s)[x] == if InTable(m, x) then 1 else 0
  }

  lemma TakeOut(m: Table, k: Metric, total: int)
    requires k in m
    ensures Wrap64(Wrap64(total + m[k]) + Sum(m - {k})) == Wrap64(total + Sum(m))
    ensures |m - {k}| < |m|
  {
    hide Wrap64;
    SumWithout(m, k);
    WrapAdd(total + m[k], Sum(m - {k}));
    assert (m - {k}).Keys == m.Keys - {k};
  }

  /** `sumMapValues`, in whatever order the map is iterated. */
  method SumWrapped(m: Table) returns (total: int64)
    ensures total == Wrap64(Sum(m))
  {
    hide Wrap64, Sum;
    total := 0;
    var rest: Table := m;
    while rest != map[]
      invariant Wrap64(total + Sum(rest)) == Wrap64(Sum(m))
      decreases |rest|
    {
      var k :| k in rest;
      TakeOut(rest, k, total);
      total := Wrap64(total + rest[k]);
      rest := rest - {k};
    }
    SumEmpty(rest);
    WrapOfInt64(total);
  }

  /** `sumBadgeMapValues`; the badge counters are exact. */
  method SumExact(m: map<Badge, int>) returns (total: int)
    ensures total == Sum(m)
  {
    total := 0;
    var rest := m;
    while rest != map[]
      invariant total + Sum(rest) == Sum(m)
      decreases |rest|
    {
      var k :| k in rest;
      SumWithout(rest, k);
      assert |rest - {k}| < |rest| by {
        assert (rest - {k}).Keys == rest.Keys - {k};
      }
      total := total + rest[k];
      rest := rest - {k};
    }
  }

  /** Lists the rows of the table, in whatever order the map is iterated. */
  method Rows(m: Table) returns (s: seq<Entry>)
    ensures Enumerates(s, m)
  {
    s := [];
    var rest: Table := m;
    while rest != map[]
      invariant |s| + |rest| == |m|
      invariant forall x :: InTable(rest, x) ==> InTable(m, x)
      invariant forall x :: multiset(s)[x] == if InTable(m, x) && !InTable(rest, x) then 1 else 0
      decreases |rest|
    {
      var k :| k in rest;
      assert (rest - {k}).Keys == rest.Keys - {k};
      assert forall x :: InTable(rest - {k}, x) <==> InTable(rest, x) && x != Entry(k, rest[k]);
      s := s + [Entry(k, rest[k])];
      rest := rest - {k};
    }
  }

  /** Everything from `i` on is at most everything before it, which is in order. */
  ghost predicate SortedUpTo(s: seq<Entry>, i: nat) {
    forall p, q :: 0 <= p < q < |s| && p < i ==> s[p].points >= s[q].points
  }

  /** Row `i` is the largest of rows `i .. j - 1`. */
  ghost predicate LargestUpTo(s: seq<Entry>, i: nat, j: nat) {
    forall q :: i < q < j && j <= |s| ==> s[i].points >= s[q].points
  }

  /** One exchange inside the unsorted part keeps the sorted part. */
  lemma ExchangeKeeps(s: seq<Entry>, i: nat, j: nat)
    requires i < j < |s| && SortedUpTo(s, i) && LargestUpTo(s, i, j) && s[i].points < s[j].points
    ensures var s' := s[i := s[j]][j := s[i]];
            SortedUpTo(s', i) && LargestUpTo(s', i, j + 1) && multiset(s') == multiset(s)
  {
  }

  method Exchange(a: array<Entry>, i: nat, j: nat)
    requires i < j < a.Length
    modifies a
    ensures a[..] == old(a[..])[i := old(a[j])][j := old(a[i])]
  {
    a[i], a[j] := a[j], a[i];
  }

  lemma NextSorted(s: seq<Entry>, i: nat)
    requires i < |s| && SortedUpTo(s, i) && LargestUpTo(s, i, |s|)
    ensures SortedUpTo(s, i + 1)
  {
  }

  /** The exchange sort of `GetTopMetrics`, in place. */
  method ExchangeSort(a: array<Entry>)
    modifies a
    ensures Descending(a[..]) && multiset(a[..]) == old(multiset(a[..]))
  {
    for i := 0 to a.Length
      invariant SortedUpTo(a[..], i) && multiset(a[..]) == old(multiset(a[..]))
    {
      for j := i + 1 to a.Length
        invariant SortedUpTo(a[..], i) && multiset(a[..]) == old(multiset(a[..]))
        invariant LargestUpTo(a[..], i, j)
      {
        if a[i].points < a[j].points {
          ExchangeKeeps(a[..], i, j);
          Exchange(a, i, j);
        }
      }
      NextSorted(a[..], i);
    }
  }

  /** A row occurs at most once in a listing of the table. */
  lemma RowsDistinct(s: seq<Entry>, m: Table, i: nat, j: nat)
    requires Enumerates(s, m) && i < j < |s|
    ensures s[i].metric != s[j].metric
  {
    assert s == s[..i] + [s[i]] + s[i + 1..j] + [s[j]] + s[j + 1..];
    assert multiset(s)[s[i]] >= 1 && multiset(s)[s[j]] >= 1;
    assert s[i] == s[j] ==> multiset(s)[s[i]] >= 2;
  }

  /** Rows of the table, each metric once, in descending order, and no metric left out has more
      points than one that is listed. */
  ghost predicate IsTop(top: seq<Entry>, m: Table) {
    && Descending(top)
    && (forall i :: 0 <= i < |top| ==> InTable(m, top[i]))
    && (forall i, j :: 0 <= i < j < |top| ==> top[i].metric != top[j].metric)
    && (forall x, i :: InTable(m, x) && x !in top && 0 <= i < |top| ==> top[i].points >= x.points)
  }

  lemma TopOfRanking(s: seq<Entry>, m: Table, k: nat)
    requires Enumerates(s, m) && Descending(s) && k <= |s|
    ensures IsTop(s[..k], m)
  {
    forall i | 0 <= i < k ensures InTable(m, s[i]) {
      assert multiset(s)[s[i]] >= 1;
    }
    forall i, j | 0 <= i < j < k ensures s[i].metric != s[j].metric {
      RowsDistinct(s, m, i, j);
    }
    forall q | 0 <= q < k ensures s[q] in s[..k] {
      assert s[..k][q] == s[q];
    }
    forall x | InTable(m, x) && x !in s[..k] ensures forall i :: 0 <= i < k ==> s[i].points >= x.points {
      assert x in multiset(s);
      var q :| 0 <= q < |s| && s[q] == x;
    }
  }

  /** `GetTopMetrics`. The slice expression that keeps the first `limit` rows panics on a negative
      limit, so limits start at zero. The totals are over all metrics and badges, not just those
      kept. */
  method GetTopMetrics(byMetric: Table, byType: map<Badge, int>, limit: nat)
    returns (top: seq<Entry>, totalPoints: int64, totalBadges: int)
    ensures IsTop(top, byMetric) && forall i, j :: 0 <= i < j < |top| ==> top[i].points >= top[j].points
    ensures |top| == if limit < |byMetric| then limit else |byMetric|
    ensures totalPoints == Wrap64(Sum(byMetric)) && totalBadges == Sum(byType)
  {
    var rows := Rows(byMetric);
    var a := new Entry[|rows|](i requires 0 <= i < |rows| => rows[i]);
    assert a[..] == rows;
    ExchangeSort(a);
    var n := a.Length;
    if n > limit {
      n := limit;
    }
    TopOfRanking(a[..], byMetric, n);
    top := a[..n];
    totalPoints := SumWrapped(byMetric);
    totalBadges := SumExact(byType);
  }

  /** The points of a metric that the events seen have awarded, as int64 keeps them. */
  function Awarded(h: seq<Metrics.Timed>, m: Metric): int64 {
    Wrap64(Metrics.Total(h, Metrics.Points, Metrics.OfMetric(m)))
  }

  lemma CountersMean(cm: Metrics.ComprehensiveMetrics)
    requires cm.Valid()
    ensures forall m :: m in cm.pointsAwardedByMetric ==> cm.pointsAwardedByMetric[m] == Awarded(cm.history, m)
    ensures Wrap64(Sum(cm.pointsAwardedByMetric)) ==
            Wrap64(Metrics.Total(cm.history, Metrics.Points, Metrics.Everything))
    ensures Sum(cm.badgesAwardedByType) == Metrics.Total(cm.history, Metrics.Badges, Metrics.Everything)
  {
    hide Sum, Wrap64, Metrics.Total;
    assert forall m :: m in cm.pointsAwardedByMetric ==>
             Get(cm.pointsAwardedByMetric, m) == cm.pointsAwardedByMetric[m];
  }

  /** The ranking read off the analytics counters: listed points are those awarded by the events
      seen, no other counted metric had more, and the totals are those of all events. */
  method TopOfEvents(cm: Metrics.ComprehensiveMetrics, limit: nat)
    returns (top: seq<Entry>, totalPoints: int64, totalBadges: int)
    requires cm.Valid()
    ensures |top| == if limit < |cm.pointsAwardedByMetric| then limit else |cm.pointsAwardedByMetric|
    ensures forall i, j :: 0 <= i < j < |top| ==>
              top[i].points >= top[j].points && top[i].metric != top[j].metric
    ensures forall i :: 0 <= i < |top| ==> top[i].points == Awarded(cm.history, top[i].metric)
    ensures forall m, i :: m in cm.pointsAwardedByMetric && 0 <= i < |top| ==>
              (exists k :: 0 <= k < |top| && top[k].metric == m) || top[i].points >= Awarded(cm.history, m)
    ensures totalPoints == Wrap64(Metrics.Total(cm.history, Metrics.Points, Metrics.Everything))
    ensures totalBadges == Metrics.Total(cm.history, Metrics.Badges, Metrics.Everything)
  {
    hide Sum, Wrap64, Metrics.Total;
    CountersMean(cm);
    top, totalPoints, totalBadges := GetTopMetrics(cm.pointsAwardedByMetric, cm.badgesAwardedByType, limit);
    forall m, i | m in cm.pointsAwardedByMetric && 0 <= i < |top|
      ensures (exists k :: 0 <= k < |top| && top[k].metric == m) || top[i].points >= Awarded(cm.history, m)
    {
      var x := Entry(m, cm.pointsAwardedByMetric[m]);
      assert InTable(cm.pointsAwardedByMetric, x);
      if x in top {
        var k :| 0 <= k < |top| && top[k] == x;
      }
    }
  }
}
