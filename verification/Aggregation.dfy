/** Daily, weekly and monthly roll-ups recomputed from the day counters. */
module Aggregation {
  import opened Core
  import opened Numbers
  import opened Calendar
  import opened Metrics

  /** The fields the roll-ups fill in; times are UTC day numbers. */
  datatype AggregatedData = AggregatedData(
    startDay: int, endDay: int, activeUsers: nat, pointsAwarded: int64, badgesAwarded: int)

  /** The aggregate of the selected events. */
  ghost function RollUp(h: seq<Timed>, sel: Sel, startDay: int, endDay: int): AggregatedData {
    AggregatedData(startDay, endDay, |ActiveUsers(h, sel)|, Wrap64(Total(h, Points, sel)), Total(h, Badges, sel))
  }

  // ----- A period is the sum of its days -----

  /** Totals of the days `from .. from + days - 1`, day by day. */
  function DayTotals(h: seq<Timed>, what: What, from: int, days: nat): int {
    if days == 0 then 0
    else DayTotals(h, what, from, days - 1) + Total(h, what, OnDay(DateOf(from + days - 1)))
  }

  lemma NoDayYet(h: seq<Timed>, from: int)
    ensures Wrap64(DayTotals(h, Points, from, 0)) == 0 && DayTotals(h, Badges, from, 0) == 0
  {
  }

  lemma NextDay(h: seq<Timed>, what: What, from: int, i: nat)
    ensures DayTotals(h, what, from, i + 1) ==
            DayTotals(h, what, from, i) + Total(h, what, OnDay(DateOf(from + i)))
  {
    assert from + (i + 1) - 1 == from + i;
  }

  lemma {:induction false} OneMoreDay(h: seq<Timed>, what: What, from: int, days: nat)
    ensures Total(h, what, Between(from, days + 1)) ==
            Total(h, what, Between(from, days)) + Total(h, what, OnDay(DateOf(from + days)))
  {
    hide DateOf, DayOf, Amount;
    if h == [] {
    } else {
      OneMoreDay(h[..|h| - 1], what, from, days);
      DateInjective(DayOf(h[|h| - 1].time), from + days);
    }
  }

  lemma {:induction false} NoDays(h: seq<Timed>, what: What, from: int)
    ensures Total(h, what, Between(from, 0)) == 0
  {
    if h == [] {
    } else {
      NoDays(h[..|h| - 1], what, from);
    }
  }

  lemma {:induction false} DaysAddUp(h: seq<Timed>, what: What, from: int, days: nat)
    ensures DayTotals(h, what, from, days) == Total(h, what, Between(from, days))
  {
    hide DateOf, Total;
    if days == 0 {
      NoDays(h, what, from);
    } else {
      DaysAddUp(h, what, from, days - 1);
      OneMoreDay(h, what, from, days - 1);
    }
  }

  /** Two selections that pick the same events have the same totals and users. */
  lemma {:induction false} SameSelection(h: seq<Timed>, what: What, a: Sel, b: Sel)
    requires forall e :: e in h ==> (Matches(a, e) <==> Matches(b, e))
    ensures Total(h, what, a) == Total(h, what, b)
    ensures ActiveUsers(h, a) == ActiveUsers(h, b)
  {
    hide Matches, Amount;
    if h == [] {
    } else {
      assert h[|h| - 1] in h;
      SameSelection(h[..|h| - 1], what, a, b);
    }
  }

  lemma DayIsBetween(h: seq<Timed>, what: What, d: int)
    ensures Total(h, what, Between(d, 1)) == Total(h, what, OnDay(DateOf(d)))
    ensures ActiveUsers(h, OnDay(DateOf(d))) == ActiveUsers(h, Between(d, 1))
  {
    hide DateOf, Total, ActiveUsers;
    forall e | e in h ensures Matches(OnDay(DateOf(d)), e) <==> Matches(Between(d, 1), e) {
      DateInjective(d, DayOf(e.time));
    }
    SameSelection(h, what, OnDay(DateOf(d)), Between(d, 1));
  }

  /** An ISO week is the seven days from its Monday: totals and users. */
  lemma WeekIsItsDays(h: seq<Timed>, what: What, d: int)
    ensures Total(h, what, Between(Monday(d), 7)) == Total(h, what, InWeek(WeekOf(d)))
    ensures ActiveUsers(h, InWeek(WeekOf(d))) == ActiveUsers(h, Between(Monday(d), 7))
  {
    hide WeekOf, Monday, Total, ActiveUsers;
    forall e | e in h ensures Matches(InWeek(WeekOf(d)), e) <==> Matches(Between(Monday(d), 7), e) {
      SameWeek(d, DayOf(e.time));
    }
    SameSelection(h, what, InWeek(WeekOf(d)), Between(Monday(d), 7));
  }

  /** A month is its 28 to 31 days. */
  lemma MonthIsItsDays(h: seq<Timed>, what: What, d: int)
    ensures FirstOfMonth(d) < FirstOfNextMonth(d)
    ensures var span := Between(FirstOfMonth(d), FirstOfNextMonth(d) - FirstOfMonth(d));
            && Total(h, what, span) == Total(h, what, InMonth(MonthOf(d)))
            && ActiveUsers(h, InMonth(MonthOf(d))) == ActiveUsers(h, span)
  {
    hide MonthOf, FirstOfMonth, FirstOfNextMonth, Total, ActiveUsers;
    SameMonth(d, d);
    var span := Between(FirstOfMonth(d), FirstOfNextMonth(d) - FirstOfMonth(d));
    forall e | e in h ensures Matches(InMonth(MonthOf(d)), e) <==> Matches(span, e) {
      SameMonth(d, DayOf(e.time));
    }
    SameSelection(h, what, InMonth(MonthOf(d)), span);
  }

  predicate ActiveOn(h: seq<Timed>, day: int, u: UserID) {
    u in ActiveUsers(h, OnDay(DateOf(day)))
  }

  lemma ActiveOnLast(h: seq<Timed>, day: int, u: UserID)
    requires h != []
    ensures var e := h[|h| - 1];
            ActiveOn(h, day, u) <==>
            ActiveOn(h[..|h| - 1], day, u) || (DayOf(e.time) == day && e.event.user == u)
  {
    hide DateOf, DayOf;
    DateInjective(DayOf(h[|h| - 1].time), day);
  }

  lemma NobodyYet(u: UserID)
    ensures forall day :: !ActiveOn([], day, u)
  {
  }

  /** The users active in a stretch of days are the union of the daily sets. */
  lemma {:induction false} UsersOfDays(h: seq<Timed>, from: int, days: nat, u: UserID)
    ensures u in ActiveUsers(h, Between(from, days)) <==>
            exists day :: from <= day < from + days && ActiveOn(h, day, u)
  {
    hide ActiveOn, DayOf, DateOf;
    if h == [] {
      assert forall day :: !ActiveOn(h, day, u) by {
        NobodyYet(u);
      }
    } else {
      var e, before := h[|h| - 1], h[..|h| - 1];
      UsersOfDays(before, from, days, u);
      forall day ensures ActiveOn(h, day, u) <==>
                         ActiveOn(h[..|h| - 1], day, u) || (DayOf(e.time) == day && e.event.user == u)
      {
        ActiveOnLast(h, day, u);
      }
      if Matches(Between(from, days), e) && e.event.user == u {
        assert ActiveOn(h, DayOf(e.time), u);
      }
      if u in ActiveUsers(before, Between(from, days)) {
        var day :| from <= day < from + days && ActiveOn(before, day, u);
        assert ActiveOn(h, day, u);
      }
    }
  }

  /** The users of a week are the union of the daily sets of its seven days. */
  lemma WeeklyUsersAreDailyUnion(h: seq<Timed>, d: int, u: UserID)
    ensures u in ActiveUsers(h, InWeek(WeekOf(d))) <==>
            exists day :: Monday(d) <= day < Monday(d) + 7 && ActiveOn(h, day, u)
  {
    hide WeekOf, Monday, ActiveUsers, ActiveOn;
    WeekIsItsDays(h, Points, d);
    UsersOfDays(h, Monday(d), 7, u);
  }

  /** The users of a month are the union of the daily sets of its days. */
  lemma MonthlyUsersAreDailyUnion(h: seq<Timed>, d: int, u: UserID)
    ensures u in ActiveUsers(h, InMonth(MonthOf(d))) <==>
            exists day :: FirstOfMonth(d) <= day < FirstOfNextMonth(d) && ActiveOn(h, day, u)
  {
    hide MonthOf, FirstOfMonth, FirstOfNextMonth, ActiveUsers, ActiveOn;
    MonthIsItsDays(h, Points, d);
    UsersOfDays(h, FirstOfMonth(d), FirstOfNextMonth(d) - FirstOfMonth(d), u);
  }

  // ----- The aggregation engine -----

  /** Go's `%` truncates toward zero. */
  function GoMod7(x: int): int {
    if x >= 0 then x % 7 else -((-x) % 7)
  }

  lemma SinceMonday(d: int)
    ensures var r := GoMod7(Weekday(d) - 1);
            d - (if r < 0 then r + 7 else r) == Monday(d)
  {
  }

  class AggregationEngine {
    const metrics: ComprehensiveMetrics

    var daily: map<Date, AggregatedData>
    var weekly: map<WeekKey, AggregatedData>
    var monthly: map<MonthKey, AggregatedData>

    constructor (metrics: ComprehensiveMetrics)
      ensures this.metrics == metrics && daily == map[] && weekly == map[] && monthly == map[]
    {
      this.metrics := metrics;
      daily, weekly, monthly := map[], map[], map[];
    }

    method AggregateDaily(now: int)
      requires metrics.Valid()
      modifies `daily
      ensures var d := DayOf(now);
              daily == old(daily)[DateOf(d) := RollUp(metrics.history, OnDay(DateOf(d)), d, d + 1)]
    {
      hide DateOf, WeekOf, MonthOf, DayOf, Monday, FirstOfMonth, FirstOfNextMonth, Total, ActiveUsers, Wrap64,
           EngagementOk, PointsOk, BadgesOk, LevelsOk, AchievementsOk;
      var d := DayOf(now);
      metrics.DayCounters(DateOf(d));
      metrics.ActiveCounters(DateOf(d), WeekOf(d), MonthOf(d));
      var today := DateOf(d);
      daily := daily[today := AggregatedData(
        d, d + 1, |Members(metrics.dailyActiveUsers, today)|,
        Get(metrics.pointsAwardedByDay, today), Get(metrics.badgesAwardedByDay, today))];
    }

    /** Adds up the day counters of a stretch of days. */
    method SumDays(from: int, days: nat) returns (points: int64, badges: int)
      requires metrics.Valid()
      ensures points == Wrap64(Total(metrics.history, Points, Between(from, days)))
      ensures badges == Total(metrics.history, Badges, Between(from, days))
    {
      hide DateOf, Total, DayTotals, Wrap64, EngagementOk, PointsOk, BadgesOk, LevelsOk, AchievementsOk;
      ghost var h := metrics.history;
      points, badges := 0, 0;
      NoDayYet(h, from);
      for i := 0 to days
        invariant points == Wrap64(DayTotals(h, Points, from, i))
        invariant badges == DayTotals(h, Badges, from, i)
      {
        var day := DateOf(from + i);
        metrics.DayCounters(day);
        NextDay(h, Points, from, i);
        NextDay(h, Badges, from, i);
        WrapBoth(DayTotals(h, Points, from, i), Total(h, Points, OnDay(day)));
        points := Wrap64(points + Get(metrics.pointsAwardedByDay, day));
        badges := badges + Get(metrics.badgesAwardedByDay, day);
      }
      DaysAddUp(h, Points, from, days);
      DaysAddUp(h, Badges, from, days);
    }

    /** The weekly figures are those of exactly the events whose week key is this week's. */
    method AggregateWeekly(now: int)
      requires metrics.Valid()
      modifies `weekly
      ensures var d := DayOf(now);
              weekly == old(weekly)[WeekOf(d) :=
                RollUp(metrics.history, InWeek(WeekOf(d)), Monday(d), Monday(d) + 7)]
    {
      hide DateOf, WeekOf, MonthOf, DayOf, Monday, FirstOfMonth, FirstOfNextMonth, Total, ActiveUsers, Wrap64,
           EngagementOk, PointsOk, BadgesOk, LevelsOk, AchievementsOk;
      var d := DayOf(now);
      metrics.ActiveCounters(DateOf(d), WeekOf(d), MonthOf(d));
      var key := WeekOf(d);
      var daysSinceMonday := GoMod7(Weekday(d) - 1);
      if daysSinceMonday < 0 {
        daysSinceMonday := daysSinceMonday + 7;
      }
      var start := d - daysSinceMonday;
      SinceMonday(d);
      var points, badges := SumDays(start, 7);
      WeekIsItsDays(metrics.history, Points, d);
      WeekIsItsDays(metrics.history, Badges, d);
      weekly := weekly[key := AggregatedData(
        start, start + 7, |Members(metrics.weeklyActiveUsers, key)|, points, badges)];
    }

    /** Likewise for the calendar month. */
    method AggregateMonthly(now: int)
      requires metrics.Valid()
      modifies `monthly
      ensures var d := DayOf(now);
              monthly == old(monthly)[MonthOf(d) :=
                RollUp(metrics.history, InMonth(MonthOf(d)), FirstOfMonth(d), FirstOfNextMonth(d))]
    {
      hide DateOf, WeekOf, MonthOf, DayOf, Monday, FirstOfMonth, FirstOfNextMonth, Total, ActiveUsers, Wrap64,
           EngagementOk, PointsOk, BadgesOk, LevelsOk, AchievementsOk;
      var d := DayOf(now);
      metrics.ActiveCounters(DateOf(d), WeekOf(d), MonthOf(d));
      var key := MonthOf(d);
      var start, end := FirstOfMonth(d), FirstOfNextMonth(d);
      MonthIsItsDays(metrics.history, Points, d);
      var points, badges := SumDays(start, end - start);
      MonthIsItsDays(metrics.history, Badges, d);
      monthly := monthly[key := AggregatedData(
        start, end, |Members(metrics.monthlyActiveUsers, key)|, points, badges)];
    }
  }

  /** From events to roll-ups: whatever events come in, in any order of their times, the
      aggregates are those of the events of this day, ISO week and month. */
  method Report(events: seq<Timed>, now: int)
    returns (day: AggregatedData, week: AggregatedData, month: AggregatedData)
    ensures var d := DayOf(now);
            && day == RollUp(events, OnDay(DateOf(d)), d, d + 1)
            && week == RollUp(events, InWeek(WeekOf(d)), Monday(d), Monday(d) + 7)
            && month == RollUp(events, InMonth(MonthOf(d)), FirstOfMonth(d), FirstOfNextMonth(d))
    ensures day.startDay == DayOf(now) && day.endDay == day.startDay + 1
    ensures week.startDay == Monday(DayOf(now)) && week.endDay == week.startDay + 7
    ensures month.startDay == FirstOfMonth(DayOf(now)) && month.endDay == FirstOfNextMonth(DayOf(now))
    ensures forall a :: a in {day, week, month} ==>
              && a.activeUsers == |ActiveUsers(events, Between(a.startDay, a.endDay - a.startDay))|
              && a.pointsAwarded == Wrap64(Total(events, Points, Between(a.startDay, a.endDay - a.startDay)))
              && a.badgesAwarded == Total(events, Badges, Between(a.startDay, a.endDay - a.startDay))
  {
    hide DateOf, WeekOf, MonthOf, DayOf, Monday, FirstOfMonth, FirstOfNextMonth, Total, ActiveUsers, Wrap64,
         EngagementOk, PointsOk, BadgesOk, LevelsOk, AchievementsOk;
    var metrics := new ComprehensiveMetrics();
    for i := 0 to |events|
      invariant fresh(metrics) && metrics.Valid() && metrics.history == events[..i]
    {
      metrics.OnEvent(events[i]);
    }
    assert events[..|events|] == events;
    var engine := new AggregationEngine(metrics);
    engine.AggregateDaily(now);
    engine.AggregateWeekly(now);
    engine.AggregateMonthly(now);
    var d := DayOf(now);
    DayIsBetween(events, Points, d);
    DayIsBetween(events, Badges, d);
    WeekIsItsDays(events, Points, d);
    WeekIsItsDays(events, Badges, d);
    MonthIsItsDays(events, Points, d);
    MonthIsItsDays(events, Badges, d);
    day, week, month := engine.daily[DateOf(d)], engine.weekly[WeekOf(d)], engine.monthly[MonthOf(d)];
  }
}
