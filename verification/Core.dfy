/** Domain types, safe arithmetic, the level curve and the level-up rule. */
module Core {
  type UserID = string

  type Metric = string

  type Badge = string

  const METRIC_XP: Metric := "xp"

  const MIN_INT64: int := -0x8000_0000_0000_0000

  const MAX_INT64: int := 0x7fff_ffff_ffff_ffff

  type int64 = x: int | MIN_INT64 <= x <= MAX_INT64

  datatype Option<+T> = None | Some(value: T)

  datatype Error = ZeroDelta | EmptyUserID | InvalidBadge | IntegerOverflow | WrongType

  datatype Result<+T> = Ok(value: T) | Err(error: Error)

  /** A snapshot of one user; the time of the last change is not part of the model. */
  datatype UserState = UserState(
    userID: UserID, points: map<Metric, int64>, badges: set<Badge>, levels: map<Metric, int>)

  function EmptyState(user: UserID): UserState {
    UserState(user, map[], {}, map[])
  }

  /** Reading a Go map: a missing key is zero. */
  function Get<K>(m: map<K, int>, k: K): int {
    if k in m then m[k] else 0
  }

  datatype Event =
    | PointsAdded(user: UserID, metric: Metric, delta: int64, total: int64)
    | BadgeAwarded(user: UserID, badge: Badge)
    | LevelUp(user: UserID, metric: Metric, level: int)
    | AchievementUnlocked(user: UserID, achievement: Option<string>)

  /** Fails exactly when the sum leaves int64; the tests themselves never do. */
  function AddSafe(base: int64, delta: int64): (r: Result<int64>)
    ensures r.Ok? <==> -0x8000_0000_0000_0000 <= base + delta <= 0x7fff_ffff_ffff_ffff
    ensures r.Ok? ==> r.value == base + delta
    ensures r.Err? ==> r.error == IntegerOverflow
  {
    if delta > 0 && (var room: int64 := MAX_INT64 - delta; base > room) then Err(IntegerOverflow)
    else if delta < 0 && (var room: int64 := MIN_INT64 - delta; base < room) then Err(IntegerOverflow)
    else Ok(base + delta)
  }

  function ISqrt(n: nat): (r: nat)
    ensures r * r <= n < (r + 1) * (r + 1)
  {
    if n == 0 then 0
    else
      var r := ISqrt(n - 1);
      assert (r + 2) * (r + 2) == (r + 1) * (r + 1) + 2 * r + 3;
      if (r + 1) * (r + 1) <= n then r + 1 else r
  }

  /** floor(sqrt(xp) / 10) + 1 over exact integers, at least 1. */
  function DefaultLevel(totalXP: int): int {
    if totalXP <= 0 then 1
    else
      var lvl := ISqrt(totalXP) / 10 + 1;
      if lvl < 1 then 1 else lvl
  }

  lemma MulMonotone(x: int, y: int)
    requires 0 <= x <= y
    ensures x * x <= y * y
  {
    assert x * x <= x * y <= y * y;
  }

  lemma TensBelowSquare(k: nat, r: nat)
    requires 10 * k <= r
    ensures 100 * (k * k) <= r * r
  {
    assert 100 * (k * k) == (10 * k) * (10 * k);
    MulMonotone(10 * k, r);
  }

  lemma SquareBelowTens(r: nat, k: nat)
    requires r <= 10 * k
    ensures r * r <= 100 * (k * k)
  {
    assert 100 * (k * k) == (10 * k) * (10 * k);
    MulMonotone(r, 10 * k);
  }

  /** Level `l` starts at 100 * (l-1)^2 experience points. */
  lemma LevelCurve(xp: int)
    ensures DefaultLevel(xp) >= 1
    ensures xp <= 0 ==> DefaultLevel(xp) == 1
    ensures xp > 0 ==> var l := DefaultLevel(xp); 100 * ((l - 1) * (l - 1)) <= xp < 100 * (l * l)
  {
    if xp > 0 {
      var r, l := ISqrt(xp), DefaultLevel(xp);
      TensBelowSquare(l - 1, r);
      SquareBelowTens(r + 1, l);
    }
  }

  /** The curve's bounds determine the level. */
  lemma LevelOf(xp: int, l: int)
    requires xp > 0 && l >= 1 && 100 * ((l - 1) * (l - 1)) <= xp < 100 * (l * l)
    ensures DefaultLevel(xp) == l
  {
    LevelCurve(xp);
    var k := DefaultLevel(xp);
    if k < l {
      MulMonotone(k, l - 1);
    } else if l < k {
      MulMonotone(l, k - 1);
    }
  }

  lemma LevelMonotone(x: int, y: int)
    requires x <= y
    ensures DefaultLevel(x) <= DefaultLevel(y)
  {
    LevelCurve(x);
    LevelCurve(y);
    var lx, ly := DefaultLevel(x), DefaultLevel(y);
    if ly < lx {
      MulMonotone(ly, lx - 1);
    }
  }

  datatype Rule = LevelUpRule(metric: Metric)

  /** `LevelUpRule.Evaluate` */
  function EvaluateRule(rule: Rule, state: UserState, trigger: Event): seq<Event> {
    if !trigger.PointsAdded? || trigger.metric != rule.metric then []
    else
      var newLevel := DefaultLevel(Get(state.points, rule.metric));
      if newLevel > Get(state.levels, rule.metric)
      then [LevelUp(state.userID, rule.metric, newLevel)]
      else []
  }

  /** The rule in terms of the curve: it answers to adds of its own metric only, and reports the
      level `l` of the total exactly when that is above the stored one. */
  lemma RuleFollowsCurve(rule: Rule, state: UserState, trigger: Event) returns (l: int)
    ensures var total := Get(state.points, rule.metric);
            && l >= 1 && (total <= 0 ==> l == 1)
            && (total > 0 ==> 100 * ((l - 1) * (l - 1)) <= total < 100 * (l * l))
    ensures EvaluateRule(rule, state, trigger) ==
            if trigger.PointsAdded? && trigger.metric == rule.metric && l > Get(state.levels, rule.metric)
            then [LevelUp(state.userID, rule.metric, l)] else []
  {
    hide DefaultLevel;
    LevelCurve(Get(state.points, rule.metric));
    l := DefaultLevel(Get(state.points, rule.metric));
  }

  /** What the rule engine derives: the rules' events, in rule order. */
  function Derived(rules: seq<Rule>, state: UserState, trigger: Event): seq<Event> {
    if rules == [] then []
    else Derived(rules[..|rules| - 1], state, trigger)
         + EvaluateRule(rules[|rules| - 1], state, trigger)
  }

  /** Rules are heard in order. */
  lemma {:induction false} DerivedInOrder(a: seq<Rule>, b: seq<Rule>, state: UserState, trigger: Event)
    ensures Derived(a + b, state, trigger) == Derived(a, state, trigger) + Derived(b, state, trigger)
  {
    hide EvaluateRule;
    if b == [] {
      assert a + b == a;
    } else {
      var n := |b| - 1;
      DerivedInOrder(a, b[..n], state, trigger);
      assert (a + b)[..|a| + n] == a + b[..n];
    }
  }

  const DEFAULT_RULES: seq<Rule> := [LevelUpRule(METRIC_XP)]
}
