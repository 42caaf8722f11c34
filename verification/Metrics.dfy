/** The analytics counters that one event handler keeps in step. */
module Metrics {
  import opened Core
  import opened Numbers
  import opened Calendar

  datatype Timed = Timed(event: Event, time: int)

  // ----- What the counters are about: totals over the events seen -----

  datatype What = Points | Badges | Levels | Achievements

  /** Which events a total ranges over. */
  datatype Sel =
    | Everything
    | OnDay(date: Date)
    | InWeek(week: WeekKey)
    | InMonth(month: MonthKey)
    | Between(from: int, days: int)
    | OfMetric(metric: Metric)
    | OfLevel(metric: Metric, level: int)
    | OfBadge(badge: Badge)
    | OfAchievement(name: string)

  predicate Matches(sel: Sel, e: Timed) {
    match sel
    case Everything => true
    case OnDay(d) => DateOf(DayOf(e.time)) == d
    case InWeek(w) => WeekOf(DayOf(e.time)) == w
    case InMonth(m) => MonthOf(DayOf(e.time)) == m
    case Between(from, days) => from <= DayOf(e.time) < from + days
    case OfMetric(m) => (e.event.PointsAdded? || e.event.LevelUp?) && e.event.metric == m
    case OfLevel(m, l) => e.event.LevelUp? && e.event.metric == m && e.event.level == l
    case OfBadge(b) => e.event.BadgeAwarded? && e.event.badge == b
    case OfAchievement(a) => e.event.AchievementUnlocked? && e.event.achievement == Some(a)
  }

  /** What one event adds. Points count only when they are awarded, not when they are spent. */
  function Amount(what: What, e: Timed): int {
    match what
    case Points => if e.event.PointsAdded? && e.event.delta > 0 then e.event.delta else 0
    case Badges => if e.event.BadgeAwarded? then 1 else 0
    case Levels => if e.event.LevelUp? then 1 else 0
    case Achievements => if e.event.AchievementUnlocked? && e.event.achievement.Some? then 1 else 0
  }

  function Total(h: seq<Timed>, what: What, sel: Sel): int {
    if h == [] then 0
    else
      var e, before := h[|h| - 1], Total(h[..|h| - 1], what, sel);
      if Matches(sel, e) then before + Amount(what, e) else before
  }

  function ActiveUsers(h: seq<Timed>, sel: Sel): set<UserID> {
    if h == [] then {}
    else
      var e, before := h[|h| - 1], ActiveUsers(h[..|h| - 1], sel);
      if Matches(sel, e) then before + {e.event.user} else before
  }

  function Holders(h: seq<Timed>, badge: Badge): set<UserID> {
    ActiveUsers(h, OfBadge(badge))
  }

  lemma Append(h: seq<Timed>, e: Timed)
    ensures forall what, sel :: Total(h + [e], what, sel) ==
              Total(h, what, sel) + if Matches(sel, e) then Amount(what, e) else 0
    ensures forall sel :: ActiveUsers(h + [e], sel) ==
              ActiveUsers(h, sel) + if Matches(sel, e) then {e.event.user} else {}
  {
    assert (h + [e])[..|h|] == h;
  }

  /** What one more event adds to each total, spelled out. */
  lemma TotalStep(h: seq<Timed>, e: Timed, sel: Sel)
    ensures var x, here := e.event, Matches(sel, e);
            && Total(h + [e], Points, sel) == Total(h, Points, sel) +
                 (if here && x.PointsAdded? && x.delta > 0 then x.delta else 0)
            && Total(h + [e], Badges, sel) == Total(h, Badges, sel) + (if here && x.BadgeAwarded? then 1 else 0)
            && Total(h + [e], Levels, sel) == Total(h, Levels, sel) + (if here && x.LevelUp? then 1 else 0)
            && Total(h + [e], Achievements, sel) == Total(h, Achievements, sel) +
                 (if here && x.AchievementUnlocked? && x.achievement.Some? then 1 else 0)
  {
    hide Matches, Total;
    Append(h, e);
  }

  // ----- Counter updates -----

  function Bump<K>(m: map<K, int>, k: K, x: int): map<K, int> {
    m[k := Get(m, k) + x]
  }

  /** `m[k] += x` on int64. */
  function BumpWrapped<K>(m: map<K, int64>, k: K, x: int): map<K, int64> {
    m[k := Wrap64(Get(m, k) + x)]
  }

  function Members<K>(m: map<K, set<UserID>>, k: K): set<UserID> {
    if k in m then m[k] else {}
  }

  function Join<K>(m: map<K, set<UserID>>, k: K, u: UserID): map<K, set<UserID>> {
    m[k := Members(m, k) + {u}]
  }

  /** A bump adds to one entry, and a missing entry counts as zero. */
  lemma BumpEntry<K>(m: map<K, int>, w: map<K, int64>, k: K, x: int, j: K)
    ensures Get(Bump(m, k, x), j) == Get(m, j) + if j == k then x else 0
    ensures Get(BumpWrapped(w, k, x), j) == if j == k then Wrap64(Get(w, j) + x) else Get(w, j)
  {
  }

  lemma BumpSum<K(!new)>(m: map<K, int>, k: K, x: int)
    ensures Sum(Bump(m, k, x)) == Sum(m) + x
  {
    SumPut(m, k, Get(m, k) + x);
  }

  lemma BumpWrappedSum<K(!new)>(m: map<K, int64>, k: K, x: int)
    ensures Wrap64(Sum(BumpWrapped(m, k, x))) == Wrap64(Sum(m) + x)
  {
    var before := Get(m, k);
    SumPut(m, k, Wrap64(before + x));
    WrapAdd(before + x, Sum(m) - before);
  }

  // ----- The counters agree with the events -----

  type Distribution = map<Metric, map<int, int>>

  function Inner(dist: Distribution, m: Metric): map<int, int> {
    if m in dist then dist[m] else map[]
  }

  ghost function PerMetric(dist: Distribution): map<Metric, int> {
    map m | m in dist :: Sum(dist[m])
  }

  ghost predicate EngagementOk(
    daily: map<Date, set<UserID>>, weekly: map<WeekKey, set<UserID>>,
    monthly: map<MonthKey, set<UserID>>, h: seq<Timed>)
  {
    && (forall d :: Members(daily, d) == ActiveUsers(h, OnDay(d)))
    && (forall w :: Members(weekly, w) == ActiveUsers(h, InWeek(w)))
    && (forall m :: Members(monthly, m) == ActiveUsers(h, InMonth(m)))
  }

  ghost predicate PointsOk(byDay: map<Date, int64>, byMetric: map<Metric, int64>, h: seq<Timed>) {
    && (forall d :: Get(byDay, d) == Wrap64(Total(h, Points, OnDay(d))))
    && (forall m :: Get(byMetric, m) == Wrap64(Total(h, Points, OfMetric(m))))
    && Wrap64(Sum(byDay)) == Wrap64(Total(h, Points, Everything)) == Wrap64(Sum(byMetric))
  }

  /** A badge has at most as many holders as it has been awarded. */
  ghost predicate HoldersOk(byType: map<Badge, int>, holders: map<Badge, set<UserID>>, h: seq<Timed>) {
    forall b :: Members(holders, b) == Holders(h, b) && |Members(holders, b)| <= Get(byType, b)
  }

  ghost predicate BadgesOk(
    byDay: map<Date, int>, byType: map<Badge, int>, holders: map<Badge, set<UserID>>, h: seq<Timed>)
  {
    && (forall d :: Get(byDay, d) == Total(h, Badges, OnDay(d)))
    && (forall b :: Get(byType, b) == Total(h, Badges, OfBadge(b)))
    && Sum(byDay) == Total(h, Badges, Everything) == Sum(byType)
    && HoldersOk(byType, holders, h)
  }

  /** The distribution counts the level-ups per metric and level. */
  ghost predicate DistOk(dist: Distribution, byMetric: map<Metric, int>, h: seq<Timed>) {
    && (forall m, l :: Get(Inner(dist, m), l) == Total(h, Levels, OfLevel(m, l)))
    && PerMetric(dist) == byMetric
  }

  ghost predicate LevelsOk(
    byDay: map<Date, int>, byMetric: map<Metric, int>, dist: Distribution, h: seq<Timed>)
  {
    && (forall d :: Get(byDay, d) == Total(h, Levels, OnDay(d)))
    && (forall m :: Get(byMetric, m) == Total(h, Levels, OfMetric(m)))
    && DistOk(dist, byMetric, h)
    && Sum(byDay) == Total(h, Levels, Everything) == Sum(byMetric)
  }

  ghost predicate AchievementsOk(byDay: map<Date, int>, byType: map<string, int>, h: seq<Timed>) {
    && (forall d :: Get(byDay, d) == Total(h, Achievements, OnDay(d)))
    && (forall a :: Get(byType, a) == Total(h, Achievements, OfAchievement(a)))
    && Sum(byDay) == Total(h, Achievements, Everything) == Sum(byType)
  }

  lemma EngagementStep(
      daily: map<Date, set<UserID>>, weekly: map<WeekKey, set<UserID>>,
      monthly: map<MonthKey, set<UserID>>, h: seq<Timed>, e: Timed)
    requires EngagementOk(daily, weekly, monthly, h)
    ensures var d, u := DayOf(e.time), e.event.user;
            EngagementOk(Join(daily, DateOf(d), u), Join(weekly, WeekOf(d), u),
                         Join(monthly, MonthOf(d), u), h + [e])
  {
    hide DateOf, WeekOf, MonthOf, DayOf, MonthStart, Jan1, YearOf, DaysBefore, Wrap64, Sum, Total, ActiveUsers;
    Append(h, e);
  }

  lemma PointsStep(byDay: map<Date, int64>, byMetric: map<Metric, int64>, h: seq<Timed>, e: Timed)
    requires PointsOk(byDay, byMetric, h)
    ensures if e.event.PointsAdded? && e.event.delta > 0
            then PointsOk(BumpWrapped(byDay, DateOf(DayOf(e.time)), e.event.delta),
                          BumpWrapped(byMetric, e.event.metric, e.event.delta), h + [e])
            else PointsOk(byDay, byMetric, h + [e])
  {
    hide DateOf, WeekOf, MonthOf, DayOf, MonthStart, Jan1, YearOf, DaysBefore, Wrap64, Sum, Total, ActiveUsers;
    Append(h, e);
    var x := Amount(Points, e);
    if x != 0 {
      var d, m := DateOf(DayOf(e.time)), e.event.metric;
      WrapAdd(Total(h, Points, OnDay(d)), x);
      WrapAdd(Total(h, Points, OfMetric(m)), x);
      BumpWrappedSum(byDay, d, x);
      BumpWrappedSum(byMetric, m, x);
      WrapAdd(Sum(byDay), x);
      WrapAdd(Sum(byMetric), x);
      WrapAdd(Total(h, Points, Everything), x);
    }
  }

  lemma HoldersAppend(h: seq<Timed>, e: Timed, b: Badge)
    ensures Holders(h + [e], b) ==
            if e.event.BadgeAwarded? && e.event.badge == b then Holders(h, b) + {e.event.user} else Holders(h, b)
  {
    assert (h + [e])[..|h|] == h;
  }

  lemma HoldersStep(byType: map<Badge, int>, holders: map<Badge, set<UserID>>, h: seq<Timed>, e: Timed)
    requires HoldersOk(byType, holders, h)
    ensures if !e.event.BadgeAwarded? then HoldersOk(byType, holders, h + [e])
            else HoldersOk(Bump(byType, e.event.badge, 1),
                           Join(holders, e.event.badge, e.event.user), h + [e])
  {
    hide Holders;
    forall b
      ensures Holders(h + [e], b) ==
              if e.event.BadgeAwarded? && e.event.badge == b then Holders(h, b) + {e.event.user} else Holders(h, b)
    {
      HoldersAppend(h, e, b);
    }
    if e.event.BadgeAwarded? {
      var badge, user := e.event.badge, e.event.user;
      var byType', holders' := Bump(byType, badge, 1), Join(holders, badge, user);
      forall b ensures Members(holders', b) == Holders(h + [e], b) && |Members(holders', b)| <= Get(byType', b) {
        assert Members(holders, b) == Holders(h, b) && |Members(holders, b)| <= Get(byType, b);
        if b == badge && user in Members(holders, b) {
          assert Members(holders, b) + {user} == Members(holders, b);
        }
      }
    }
  }

  lemma BadgesStep(byDay: map<Date, int>, byType: map<Badge, int>, holders: map<Badge, set<UserID>>,
                   h: seq<Timed>, e: Timed)
    requires BadgesOk(byDay, byType, holders, h)
    ensures if !e.event.BadgeAwarded? then BadgesOk(byDay, byType, holders, h + [e])
            else BadgesOk(Bump(byDay, DateOf(DayOf(e.time)), 1), Bump(byType, e.event.badge, 1),
                          Join(holders, e.event.badge, e.event.user), h + [e])
  {
    hide DateOf, WeekOf, MonthOf, DayOf, MonthStart, Jan1, YearOf, DaysBefore, Wrap64, Sum, Total, ActiveUsers;
    hide HoldersOk;
    Append(h, e);
    HoldersStep(byType, holders, h, e);
    if e.event.BadgeAwarded? {
      BumpSum(byDay, DateOf(DayOf(e.time)), 1);
      BumpSum(byType, e.event.badge, 1);
    }
  }

  lemma DistStep(dist: Distribution, byMetric: map<Metric, int>, h: seq<Timed>, e: Timed)
    requires DistOk(dist, byMetric, h)
    ensures if !e.event.LevelUp? then DistOk(dist, byMetric, h + [e])
            else DistOk(dist[e.event.metric := Bump(Inner(dist, e.event.metric), e.event.level, 1)],
                        Bump(byMetric, e.event.metric, 1), h + [e])
  {
    hide DateOf, WeekOf, MonthOf, DayOf, MonthStart, Jan1, YearOf, DaysBefore, Wrap64, Sum, Total, ActiveUsers;
    Append(h, e);
    if e.event.LevelUp? {
      var m := e.event.metric;
      BumpSum(Inner(dist, m), e.event.level, 1);
      var dist' := dist[m := Bump(Inner(dist, m), e.event.level, 1)];
      assert m !in dist ==> Inner(dist, m) == map[] && Sum(Inner(dist, m)) == 0 by {
        SumEmpty(Inner(dist, m));
      }
      assert Get(PerMetric(dist), m) == Sum(Inner(dist, m));
      assert PerMetric(dist') == Bump(byMetric, m, 1);
    }
  }

  lemma LevelsStep(byDay: map<Date, int>, byMetric: map<Metric, int>, dist: Distribution,
                   h: seq<Timed>, e: Timed)
    requires LevelsOk(byDay, byMetric, dist, h)
    ensures if !e.event.LevelUp? then LevelsOk(byDay, byMetric, dist, h + [e])
            else LevelsOk(Bump(byDay, DateOf(DayOf(e.time)), 1), Bump(byMetric, e.event.metric, 1),
                          dist[e.event.metric := Bump(Inner(dist, e.event.metric), e.event.level, 1)],
                          h + [e])
  {
    hide DateOf, WeekOf, MonthOf, DayOf, MonthStart, Jan1, YearOf, DaysBefore, Wrap64, Sum, Total, ActiveUsers;
    hide DistOk;
    Append(h, e);
    DistStep(dist, byMetric, h, e);
    if e.event.LevelUp? {
      BumpSum(byDay, DateOf(DayOf(e.time)), 1);
      BumpSum(byMetric, e.event.metric, 1);
    }
  }

  lemma AchievementsStep(byDay: map<Date, int>, byType: map<string, int>, h: seq<Timed>, e: Timed)
    requires AchievementsOk(byDay, byType, h)
    ensures if e.event.AchievementUnlocked? && e.event.achievement.Some?
            then AchievementsOk(Bump(byDay, DateOf(DayOf(e.time)), 1),
                                Bump(byType, e.event.achievement.value, 1), h + [e])
            else AchievementsOk(byDay, byType, h + [e])
  {
    hide DateOf, WeekOf, MonthOf, DayOf, MonthStart, Jan1, YearOf, DaysBefore, Wrap64, Sum, Total, ActiveUsers;
    Append(h, e);
    if Amount(Achievements, e) != 0 {
      BumpSum(byDay, DateOf(DayOf(e.time)), 1);
      BumpSum(byType, e.event.achievement.value, 1);
    }
  }

  class ComprehensiveMetrics {
    var dailyActiveUsers: map<Date, set<UserID>>
    var weeklyActiveUsers: map<WeekKey, set<UserID>>
    var monthlyActiveUsers: map<MonthKey, set<UserID>>
    var pointsAwardedByDay: map<Date, int64>
    var pointsAwardedByMetric: map<Metric, int64>
    var badgesAwardedByDay: map<Date, int>
    var badgesAwardedByType: map<Badge, int>
    var uniqueBadgeHolders: map<Badge, set<UserID>>
    var levelsReachedByDay: map<Date, int>
    var levelsReachedByMetric: map<Metric, int>
    var levelDistribution: Distribution
    var achievementsUnlockedByDay: map<Date, int>
    var achievementsByType: map<string, int>
    ghost var history: seq<Timed>

    ghost predicate Counted(h: seq<Timed>)
      reads this
    {
      && PointsOk(pointsAwardedByDay, pointsAwardedByMetric, h)
      && BadgesOk(badgesAwardedByDay, badgesAwardedByType, uniqueBadgeHolders, h)
      && LevelsOk(levelsReachedByDay, levelsReachedByMetric, levelDistribution, h)
      && AchievementsOk(achievementsUnlockedByDay, achievementsByType, h)
    }

    ghost predicate Valid()
      reads this
    {
      && EngagementOk(dailyActiveUsers, weeklyActiveUsers, monthlyActiveUsers, history)
      && Counted(history)
    }

    constructor ()
      ensures Valid() && history == []
      ensures dailyActiveUsers == map[] && weeklyActiveUsers == map[] && monthlyActiveUsers == map[]
      ensures pointsAwardedByDay == map[] && pointsAwardedByMetric == map[]
      ensures badgesAwardedByDay == map[] && badgesAwardedByType == map[] && uniqueBadgeHolders == map[]
      ensures levelsReachedByDay == map[] && levelsReachedByMetric == map[] && levelDistribution == map[]
      ensures achievementsUnlockedByDay == map[] && achievementsByType == map[]
    {
      dailyActiveUsers, weeklyActiveUsers, monthlyActiveUsers := map[], map[], map[];
      pointsAwardedByDay, pointsAwardedByMetric := map[], map[];
      badgesAwardedByDay, badgesAwardedByType, uniqueBadgeHolders := map[], map[], map[];
      levelsReachedByDay, levelsReachedByMetric, levelDistribution := map[], map[], map[];
      achievementsUnlockedByDay, achievementsByType := map[], map[];
      history := [];
    }

    method TrackUserEngagement(user: UserID, day: Date, week: WeekKey, month: MonthKey)
      modifies `dailyActiveUsers, `weeklyActiveUsers, `monthlyActiveUsers
      ensures dailyActiveUsers == Join(old(dailyActiveUsers), day, user)
      ensures weeklyActiveUsers == Join(old(weeklyActiveUsers), week, user)
      ensures monthlyActiveUsers == Join(old(monthlyActiveUsers), month, user)
    {
      dailyActiveUsers := dailyActiveUsers[day := Members(dailyActiveUsers, day) + {user}];
      weeklyActiveUsers := weeklyActiveUsers[week := Members(weeklyActiveUsers, week) + {user}];
      monthlyActiveUsers := monthlyActiveUsers[month := Members(monthlyActiveUsers, month) + {user}];
    }

    /** What one event does to the counters, from the old and the new maps. Points that are spent,
        with a delta that is not positive, count nowhere. */
    twostate predicate Counts(e: Timed)
      reads this
    {
      var day, x := DateOf(DayOf(e.time)), e.event;
      && (if x.PointsAdded? && x.delta > 0 then
            && pointsAwardedByDay == BumpWrapped(old(pointsAwardedByDay), day, x.delta)
            && pointsAwardedByMetric == BumpWrapped(old(pointsAwardedByMetric), x.metric, x.delta)
          else
            && pointsAwardedByDay == old(pointsAwardedByDay)
            && pointsAwardedByMetric == old(pointsAwardedByMetric))
      && (if x.BadgeAwarded? then
            && badgesAwardedByDay == Bump(old(badgesAwardedByDay), day, 1)
            && badgesAwardedByType == Bump(old(badgesAwardedByType), x.badge, 1)
            && uniqueBadgeHolders == Join(old(uniqueBadgeHolders), x.badge, x.user)
          else
            && badgesAwardedByDay == old(badgesAwardedByDay)
            && badgesAwardedByType == old(badgesAwardedByType)
            && uniqueBadgeHolders == old(uniqueBadgeHolders))
      && (if x.LevelUp? then
            && levelsReachedByDay == Bump(old(levelsReachedByDay), day, 1)
            && levelsReachedByMetric == Bump(old(levelsReachedByMetric), x.metric, 1)
            && levelDistribution ==
               old(levelDistribution)[x.metric := Bump(Inner(old(levelDistribution), x.metric), x.level, 1)]
          else
            && levelsReachedByDay == old(levelsReachedByDay)
            && levelsReachedByMetric == old(levelsReachedByMetric)
            && levelDistribution == old(levelDistribution))
      && (if x.AchievementUnlocked? && x.achievement.Some? then
            && achievementsUnlockedByDay == Bump(old(achievementsUnlockedByDay), day, 1)
            && achievementsByType == Bump(old(achievementsByType), x.achievement.value, 1)
          else
            && achievementsUnlockedByDay == old(achievementsUnlockedByDay)
            && achievementsByType == old(achievementsByType))
    }

    /** Counters that move so keep meaning what they say. */
    twostate lemma CountsKeepMeaning(e: Timed)
      requires old(Counted(history)) && history == old(history) && Counts(e)
      ensures Counted(history + [e])
    {
      hide PointsOk, BadgesOk, LevelsOk, AchievementsOk, DateOf, DayOf, MonthStart, Jan1, DaysBefore,
           Bump, BumpWrapped, Join, Inner;
      PointsStep(old(pointsAwardedByDay), old(pointsAwardedByMetric), history, e);
      BadgesStep(old(badgesAwardedByDay), old(badgesAwardedByType), old(uniqueBadgeHolders), history, e);
      LevelsStep(old(levelsReachedByDay), old(levelsReachedByMetric), old(levelDistribution), history, e);
      AchievementsStep(old(achievementsUnlockedByDay), old(achievementsByType), history, e);
    }

    method CountPoints(day: Date, metric: Metric, points: int64)
      modifies `pointsAwardedByDay, `pointsAwardedByMetric
      ensures points > 0 ==>
                && pointsAwardedByDay == BumpWrapped(old(pointsAwardedByDay), day, points)
                && pointsAwardedByMetric == BumpWrapped(old(pointsAwardedByMetric), metric, points)
      ensures points <= 0 ==>
                && pointsAwardedByDay == old(pointsAwardedByDay)
                && pointsAwardedByMetric == old(pointsAwardedByMetric)
    {
      if points > 0 {
        pointsAwardedByDay := BumpWrapped(pointsAwardedByDay, day, points);
        pointsAwardedByMetric := BumpWrapped(pointsAwardedByMetric, metric, points);
      }
    }

    method CountLevel(day: Date, metric: Metric, level: int)
      modifies `levelsReachedByDay, `levelsReachedByMetric, `levelDistribution
      ensures levelsReachedByDay == Bump(old(levelsReachedByDay), day, 1)
      ensures levelsReachedByMetric == Bump(old(levelsReachedByMetric), metric, 1)
      ensures levelDistribution ==
              old(levelDistribution)[metric := Bump(Inner(old(levelDistribution), metric), level, 1)]
    {
      levelsReachedByDay := Bump(levelsReachedByDay, day, 1);
      levelsReachedByMetric := Bump(levelsReachedByMetric, metric, 1);
      levelDistribution := levelDistribution[metric := Bump(Inner(levelDistribution, metric), level, 1)];
    }

    method CountBadge(day: Date, badge: Badge, user: UserID)
      modifies `badgesAwardedByDay, `badgesAwardedByType, `uniqueBadgeHolders
      ensures badgesAwardedByDay == Bump(old(badgesAwardedByDay), day, 1)
      ensures badgesAwardedByType == Bump(old(badgesAwardedByType), badge, 1)
      ensures uniqueBadgeHolders == Join(old(uniqueBadgeHolders), badge, user)
    {
      badgesAwardedByDay := Bump(badgesAwardedByDay, day, 1);
      badgesAwardedByType := Bump(badgesAwardedByType, badge, 1);
      uniqueBadgeHolders := Join(uniqueBadgeHolders, badge, user);
    }

    /** The event-specific part of `OnEvent`. */
    method CountEvent(e: Timed)
      modifies `pointsAwardedByDay, `pointsAwardedByMetric, `badgesAwardedByDay, `badgesAwardedByType,
               `uniqueBadgeHolders, `levelsReachedByDay, `levelsReachedByMetric, `levelDistribution,
               `achievementsUnlockedByDay, `achievementsByType
      ensures Counts(e)
    {
      hide DateOf, DayOf, Bump, BumpWrapped, Join, Inner;
      var day := DateOf(DayOf(e.time));
      match e.event {
        case PointsAdded(_, metric, points, _) =>
          CountPoints(day, metric, points);
        case LevelUp(_, metric, level) =>
          CountLevel(day, metric, level);
        case BadgeAwarded(user, badge) =>
          CountBadge(day, badge, user);
        case AchievementUnlocked(_, achievement) =>
          if achievement.Some? {
            achievementsUnlockedByDay := Bump(achievementsUnlockedByDay, day, 1);
            achievementsByType := Bump(achievementsByType, achievement.value, 1);
          }
      }
    }

    /** One event moves exactly the counters it is about, and every counter keeps meaning what it
        says about the events seen. */
    method OnEvent(e: Timed)
      requires Valid()
      modifies this
      ensures Valid() && history == old(history) + [e]
      ensures var d, u := DayOf(e.time), e.event.user;
              && dailyActiveUsers == Join(old(dailyActiveUsers), DateOf(d), u)
              && weeklyActiveUsers == Join(old(weeklyActiveUsers), WeekOf(d), u)
              && monthlyActiveUsers == Join(old(monthlyActiveUsers), MonthOf(d), u)
      ensures Counts(e)
    {
      hide EngagementOk, PointsOk, BadgesOk, LevelsOk, AchievementsOk, DateOf, WeekOf, MonthOf, DayOf,
           MonthStart, Jan1, DaysBefore, Join, Bump, BumpWrapped, Inner;
      EngagementStep(dailyActiveUsers, weeklyActiveUsers, monthlyActiveUsers, history, e);
      var day, week, month := DateOf(DayOf(e.time)), WeekOf(DayOf(e.time)), MonthOf(DayOf(e.time));
      TrackUserEngagement(e.event.user, day, week, month);
      CountEvent(e);
      CountsKeepMeaning(e);
      history := history + [e];
    }

    lemma DayCounters(day: Date)
      requires Valid()
      ensures Get(pointsAwardedByDay, day) == Wrap64(Total(history, Points, OnDay(day)))
      ensures Get(badgesAwardedByDay, day) == Total(history, Badges, OnDay(day))
    {
    }

    lemma ActiveCounters(day: Date, week: WeekKey, month: MonthKey)
      requires Valid()
      ensures Members(dailyActiveUsers, day) == ActiveUsers(history, OnDay(day))
      ensures Members(weeklyActiveUsers, week) == ActiveUsers(history, InWeek(week))
      ensures Members(monthlyActiveUsers, month) == ActiveUsers(history, InMonth(month))
    {
    }

    /** Conservation: the ways of slicing the same events add up to the same. */
    lemma CountersBalance()
      requires Valid()
      ensures Wrap64(Sum(pointsAwardedByDay)) == Wrap64(Sum(pointsAwardedByMetric))
      ensures Sum(badgesAwardedByDay) == Sum(badgesAwardedByType)
      ensures Sum(levelsReachedByDay) == Sum(levelsReachedByMetric) == Sum(PerMetric(levelDistribution))
      ensures Sum(achievementsUnlockedByDay) == Sum(achievementsByType)
      ensures forall b :: |Members(uniqueBadgeHolders, b)| <= Get(badgesAwardedByType, b)
    {
    }
  }
}
