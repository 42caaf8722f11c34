/** Successful point adds in the order they took effect: their sums and their peaks. */
module Adds {
  import opened Core

  datatype Added = Added(user: UserID, metric: Metric, delta: int64, total: int64)

  /** The sum of the deltas of one user and metric. */
  function SumOf(h: seq<Added>, u: UserID, m: Metric): int {
    if h == [] then 0
    else
      var a, before := h[|h| - 1], SumOf(h[..|h| - 1], u, m);
      if a.user == u && a.metric == m then before + a.delta else before
  }

  /** The highest experience total a user ever reached. */
  function Peak(h: seq<Added>, u: UserID): Option<int> {
    if h == [] then None
    else
      var a, before := h[|h| - 1], Peak(h[..|h| - 1], u);
      if a.user != u || a.metric != METRIC_XP then before
      else if before.Some? && before.value >= a.total then before
      else Some(a.total)
  }

  /** Every recorded total is the sum of the deltas up to it. */
  ghost predicate TotalsArePrefixSums(h: seq<Added>) {
    forall i :: 0 <= i < |h| ==> h[i].total == SumOf(h[..i + 1], h[i].user, h[i].metric)
  }

  /** The adds that a log announces. */
  function AddsIn(log: seq<Event>): seq<Added> {
    if log == [] then []
    else
      var e, before := log[|log| - 1], AddsIn(log[..|log| - 1]);
      if e.PointsAdded? then before + [Added(e.user, e.metric, e.delta, e.total)] else before
  }

  lemma AddsInAppend(log: seq<Event>, e: Event)
    ensures AddsIn(log + [e]) ==
            if e.PointsAdded? then AddsIn(log) + [Added(e.user, e.metric, e.delta, e.total)] else AddsIn(log)
  {
    assert (log + [e])[..|log|] == log;
  }

  lemma HistoryAppend(h: seq<Added>, a: Added)
    ensures forall u, m :: SumOf(h + [a], u, m) ==
              SumOf(h, u, m) + if a.user == u && a.metric == m then a.delta else 0
    ensures forall u :: Peak(h + [a], u) ==
              if a.user != u || a.metric != METRIC_XP then Peak(h, u)
              else if Peak(h, u).Some? && Peak(h, u).value >= a.total then Peak(h, u)
              else Some(a.total)
  {
    assert (h + [a])[..|h|] == h;
  }

  lemma PrefixSumsAppend(h: seq<Added>, a: Added)
    requires TotalsArePrefixSums(h) && a.total == SumOf(h, a.user, a.metric) + a.delta
    ensures TotalsArePrefixSums(h + [a])
  {
    hide SumOf;
    var h' := h + [a];
    forall i | 0 <= i < |h'| ensures h'[i].total == SumOf(h'[..i + 1], h'[i].user, h'[i].metric) {
      if i < |h| {
        assert h'[..i + 1] == h[..i + 1];
      } else {
        assert h'[..i + 1] == h';
        HistoryAppend(h, a);
      }
    }
  }

  /** The peak is the greatest of the user's experience totals, and there is none without one. */
  lemma {:induction false} PeakIsHighest(h: seq<Added>, u: UserID)
    ensures forall i :: 0 <= i < |h| && h[i].user == u && h[i].metric == "xp" ==>
              Peak(h, u).Some? && h[i].total <= Peak(h, u).value
    ensures Peak(h, u).Some? ==>
              exists i :: 0 <= i < |h| && h[i].user == u && h[i].metric == "xp" && h[i].total == Peak(h, u).value
  {
    if h == [] {
    } else {
      var before, last := h[..|h| - 1], h[|h| - 1];
      PeakIsHighest(before, u);
      assert forall i :: 0 <= i < |before| ==> before[i] == h[i];
      if Peak(before, u) == Peak(h, u) && Peak(h, u).Some? {
        var i :| 0 <= i < |before| && before[i].user == u && before[i].metric == "xp"
                 && before[i].total == Peak(before, u).value;
        assert h[i] == before[i];
      } else {
        assert h[|h| - 1] == last;
      }
    }
  }
}
