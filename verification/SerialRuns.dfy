/** What holds after every serial run of service calls: the log replays to the store, totals are
    sums, and the stored level is a high-water mark. */
module SerialRuns {
  import opened Core
  import opened Adds
  import opened Memory
  import opened Service

  // ----- Event-log replay -----

  /** Folding the log from nothing gives what every reader sees. */
  ghost predicate Replays(w: World) {
    forall u :: View(w.users, u) == View(Rebuild(w.log), u)
  }

  ghost predicate PointsAreSums(w: World) {
    forall u, m :: Get(View(w.users, u).points, m) == SumOf(AddsIn(w.log), u, m)
  }

  /** The store is what the log says, for every user and metric. */
  ghost predicate LogExplainsStore(w: World) {
    && Replays(w)
    && (forall u :: View(w.users, u).userID == u)
    && PointsAreSums(w)
    && TotalsArePrefixSums(AddsIn(w.log))
  }

  /** The event carries the total that the store reaches by it. */
  ghost predicate Truthful(w: World, e: Event) {
    e.PointsAdded? ==> e.total == Get(View(w.users, e.user).points, e.metric) + e.delta
  }

  lemma EmitReplays(w: World, e: Event)
    requires Replays(w)
    ensures Replays(Emit(w, e))
  {
    assert Emit(w, e).log[..|w.log|] == w.log;
    assert Rebuild(Emit(w, e).log) == ApplyEvent(Rebuild(w.log), e);
    forall u ensures View(ApplyEvent(w.users, e), u) == View(ApplyEvent(Rebuild(w.log), e), u) {
      assert View(w.users, u) == View(Rebuild(w.log), u);
      assert View(w.users, e.user) == View(Rebuild(w.log), e.user);
    }
  }

  lemma EmitSums(w: World, e: Event)
    requires PointsAreSums(w) && Truthful(w, e)
    ensures PointsAreSums(Emit(w, e))
  {
    hide AddsIn, SumOf;
    var w' := Emit(w, e);
    AddsInAppend(w.log, e);
    if e.PointsAdded? {
      HistoryAppend(AddsIn(w.log), Added(e.user, e.metric, e.delta, e.total));
    }
    forall u, m ensures Get(View(w'.users, u).points, m) == SumOf(AddsIn(w'.log), u, m) {
      assert Get(View(w.users, u).points, m) == SumOf(AddsIn(w.log), u, m);
    }
  }

  lemma EmitPrefixSums(w: World, e: Event)
    requires TotalsArePrefixSums(AddsIn(w.log)) && PointsAreSums(w) && Truthful(w, e)
    ensures TotalsArePrefixSums(AddsIn(Emit(w, e).log))
  {
    AddsInAppend(w.log, e);
    if e.PointsAdded? {
      assert Get(View(w.users, e.user).points, e.metric) == SumOf(AddsIn(w.log), e.user, e.metric);
      PrefixSumsAppend(AddsIn(w.log), Added(e.user, e.metric, e.delta, e.total));
    }
  }

  lemma EmitExplained(w: World, e: Event)
    requires LogExplainsStore(w) && Truthful(w, e)
    ensures LogExplainsStore(Emit(w, e))
  {
    hide Replays, PointsAreSums, TotalsArePrefixSums;
    EmitReplays(w, e);
    EmitSums(w, e);
    EmitPrefixSums(w, e);
    assert forall u :: View(Emit(w, e).users, u).userID == View(w.users, u).userID;
  }

  lemma {:induction false} EmitAllExplained(w: World, es: seq<Event>)
    requires LogExplainsStore(w) && forall e :: e in es ==> !e.PointsAdded?
    ensures LogExplainsStore(EmitAll(w, es))
  {
    if es == [] {
    } else {
      EmitAllExplained(w, es[..|es| - 1]);
      EmitExplained(EmitAll(w, es[..|es| - 1]), es[|es| - 1]);
    }
  }

  lemma StepExplained(cfg: Config, w: World, call: Call)
    requires LogExplainsStore(w)
    ensures LogExplainsStore(Step(cfg, w, call))
  {
    if Rejection(cfg, w, call).None? && !call.GetState? {
      var es := Emitted(cfg, w, call);
      EmitExplained(w, es[0]);
      if call.AddPoints? {
        DerivedAreLevelUps(cfg.rules, View(ApplyEvent(w.users, es[0]), es[0].user), es[0]);
      }
      EmitAllExplained(Emit(w, es[0]), es[1..]);
      EmitAllCons(w, es[0], es[1..]);
      assert es == [es[0]] + es[1..];
    }
  }

  /** After any run, whatever the rules: folding the log from nothing rebuilds the points,
      badges and levels of every user, and every total is the sum of its deltas. */
  lemma {:induction false} LogReplaysToStore(cfg: Config, calls: seq<Call>)
    ensures LogExplainsStore(Run(cfg, calls))
  {
    if calls == [] {
    } else {
      LogReplaysToStore(cfg, calls[..|calls| - 1]);
      StepExplained(cfg, Run(cfg, calls[..|calls| - 1]), calls[|calls| - 1]);
    }
  }

  /** A rejected call leaves the log and what every reader sees as they were. */
  lemma RejectedCallsChangeNothing(cfg: Config, w: World, call: Call, u: UserID)
    requires Rejection(cfg, w, call).Some?
    ensures Step(cfg, w, call).log == w.log
    ensures View(Step(cfg, w, call).users, u) == View(w.users, u)
  {
  }

  /** No first add can overflow, so a rejected call never leaves a fresh record behind. */
  lemma OverflowNeedsARecord(cfg: Config, w: World, call: Call)
    requires Rejection(cfg, w, call) == Some(IntegerOverflow)
    ensures Step(cfg, w, call) == w
  {
    var u := cfg.normalize(call.user).value;
    assert u in w.users;
    assert Touch(w.users, u) == w.users;
  }

  // ----- The level is a high-water mark -----

  /** The experience levels a log announces for a user, in order. */
  function LevelUps(log: seq<Event>, user: UserID): seq<int> {
    if log == [] then []
    else
      var e, before := log[|log| - 1], LevelUps(log[..|log| - 1], user);
      if e.LevelUp? && e.user == user && e.metric == METRIC_XP then before + [e.level] else before
  }

  predicate StrictlyIncreasing(s: seq<int>) {
    forall i, j :: 0 <= i < j < |s| ==> s[i] < s[j]
  }

  ghost predicate HighWater(w: World, u: UserID) {
    var levels, ups := View(w.users, u).levels, LevelUps(w.log, u);
    match Peak(AddsIn(w.log), u)
    case None => METRIC_XP !in levels && ups == []
    case Some(peak) =>
      && METRIC_XP in levels && levels[METRIC_XP] == DefaultLevel(peak)
      && StrictlyIncreasing(ups) && ups != [] && ups[|ups| - 1] == levels[METRIC_XP]
  }

  lemma LogFunctionsOfEmit(w: World, e: Event, u: UserID)
    ensures Peak(AddsIn(Emit(w, e).log), u) ==
            if !(e.PointsAdded? && e.user == u && e.metric == METRIC_XP) then Peak(AddsIn(w.log), u)
            else if Peak(AddsIn(w.log), u).Some? && Peak(AddsIn(w.log), u).value >= e.total then Peak(AddsIn(w.log), u)
            else Some(e.total)
    ensures LevelUps(Emit(w, e).log, u) ==
            if e.LevelUp? && e.user == u && e.metric == METRIC_XP
            then LevelUps(w.log, u) + [e.level] else LevelUps(w.log, u)
  {
    assert Emit(w, e).log[..|w.log|] == w.log;
    AddsInAppend(w.log, e);
    if e.PointsAdded? {
      HistoryAppend(AddsIn(w.log), Added(e.user, e.metric, e.delta, e.total));
    }
  }

  lemma DefaultDerived(state: UserState, trigger: Event)
    ensures Derived(DEFAULT_RULES, state, trigger) == EvaluateRule(LevelUpRule(METRIC_XP), state, trigger)
  {
    assert DEFAULT_RULES[..0] == [];
    assert Derived(DEFAULT_RULES[..0], state, trigger) == [];
  }

  /** The experience level a reader sees; zero before the first one. */
  function XPLevel(w: World, u: UserID): int {
    Get(View(w.users, u).levels, METRIC_XP)
  }

  /** What an accepted experience add amounts to for its user: the total becomes `total`, and a
      level-up follows exactly when the curve is above the stored level. */
  lemma XPAddEffect(w: World, added: Event) returns (w': World)
    requires Truthful(w, added) && View(w.users, added.user).userID == added.user
    requires added.PointsAdded? && added.metric == METRIC_XP
    ensures var state := View(ApplyEvent(w.users, added), added.user);
            w' == EmitAll(w, [added] + EvaluateRule(LevelUpRule(METRIC_XP), state, added))
    ensures Peak(AddsIn(w'.log), added.user) ==
            if Peak(AddsIn(w.log), added.user).Some? && Peak(AddsIn(w.log), added.user).value >= added.total
            then Peak(AddsIn(w.log), added.user) else Some(added.total)
    ensures var before, after := XPLevel(w, added.user), DefaultLevel(added.total);
            if after > before
            then && View(w'.users, added.user).levels == View(w.users, added.user).levels[METRIC_XP := after]
                 && LevelUps(w'.log, added.user) == LevelUps(w.log, added.user) + [after]
            else && View(w'.users, added.user).levels == View(w.users, added.user).levels
                 && LevelUps(w'.log, added.user) == LevelUps(w.log, added.user)
  {
    hide Peak, AddsIn, LevelUps, DefaultLevel;
    var u := added.user;
    var w1 := Emit(w, added);
    var derived := EvaluateRule(LevelUpRule(METRIC_XP), View(w1.users, u), added);
    w' := EmitAll(w, [added] + derived);
    EmitAllCons(w, added, derived);
    LogFunctionsOfEmit(w, added, u);
    if derived != [] {
      assert derived == [derived[0]] + [];
      EmitAllCons(w1, derived[0], []);
      LogFunctionsOfEmit(w1, derived[0], u);
    }
  }

  /** One accepted experience add keeps the mark and never lowers the level. */
  lemma XPAddKeepsMark(w: World, added: Event) returns (w': World)
    requires Truthful(w, added) && View(w.users, added.user).userID == added.user
    requires added.PointsAdded? && added.metric == METRIC_XP && HighWater(w, added.user)
    ensures var state := View(ApplyEvent(w.users, added), added.user);
            w' == EmitAll(w, [added] + EvaluateRule(LevelUpRule(METRIC_XP), state, added))
    ensures HighWater(w', added.user) && XPLevel(w, added.user) <= XPLevel(w', added.user)
  {
    hide EmitAll, EvaluateRule, Peak, AddsIn, LevelUps, DefaultLevel;
    w' := XPAddEffect(w, added);
    LevelCurve(added.total);
    if Peak(AddsIn(w.log), added.user).Some? {
      var peak := Peak(AddsIn(w.log), added.user).value;
      if peak <= added.total {
        LevelMonotone(peak, added.total);
      } else {
        LevelMonotone(added.total, peak);
      }
    }
  }

  /** Events about other users, or that are no experience adds or level-ups, touch no mark. */
  lemma OtherEventKeepsMark(w: World, e: Event, u: UserID)
    requires HighWater(w, u)
    requires e.user != u || !(e.PointsAdded? || e.LevelUp?) || e.metric != METRIC_XP
    ensures HighWater(Emit(w, e), u)
    ensures XPLevel(Emit(w, e), u) == XPLevel(w, u)
  {
    hide Peak, AddsIn, LevelUps, DefaultLevel;
    LogFunctionsOfEmit(w, e, u);
  }

  /** With the default rules a call emits one event, and at most a level-up after it. */
  lemma DefaultEmitted(cfg: Config, w: World, call: Call) returns (es: seq<Event>)
    requires cfg.rules == DEFAULT_RULES && Rejection(cfg, w, call).None? && !call.GetState?
    ensures Step(cfg, w, call) == EmitAll(w, es) && es != [] && Truthful(w, es[0])
    ensures es[0].PointsAdded? || (es == [es[0]] && es[0].BadgeAwarded?)
    ensures es[0].PointsAdded? ==>
              es == [es[0]] + EvaluateRule(LevelUpRule(METRIC_XP),
                                           View(ApplyEvent(w.users, es[0]), es[0].user), es[0])
  {
    es := Emitted(cfg, w, call);
    if call.AddPoints? {
      DefaultDerived(View(ApplyEvent(w.users, es[0]), es[0].user), es[0]);
    }
  }

  lemma EmitAllSmall(w: World, e: Event)
    ensures EmitAll(w, []) == w && EmitAll(w, [e]) == Emit(w, e)
  {
    assert [e][..0] == [];
  }

  lemma AcceptedKeepsMark(cfg: Config, w: World, call: Call, u: UserID)
    requires cfg.rules == DEFAULT_RULES && LogExplainsStore(w) && HighWater(w, u)
    requires Rejection(cfg, w, call).None? && !call.GetState?
    ensures HighWater(Step(cfg, w, call), u)
    ensures XPLevel(w, u) <= XPLevel(Step(cfg, w, call), u)
  {
    hide HighWater, Step, Emit, EmitAll, Rejection;
    var es := DefaultEmitted(cfg, w, call);
    var e := es[0];
    if e.PointsAdded? && e.user == u && e.metric == METRIC_XP {
      var _ := XPAddKeepsMark(w, e);
    } else {
      assert View(ApplyEvent(w.users, e), e.user).userID == View(w.users, e.user).userID == e.user;
      OtherEventKeepsMark(w, e, u);
      var w1 := Emit(w, e);
      assert EmitAll(w, es) == EmitAll(w1, es[1..]) by {
        assert es == [e] + es[1..];
        EmitAllCons(w, e, es[1..]);
      }
      if es[1..] == [] {
        assert EmitAll(w1, es[1..]) == w1 by {
          EmitAllSmall(w1, e);
        }
      } else {
        assert es[1..] == [es[1]];
        EmitAllSmall(w1, es[1]);
        OtherEventKeepsMark(w1, es[1], u);
      }
    }
  }

  lemma StepKeepsMark(cfg: Config, w: World, call: Call, u: UserID)
    requires cfg.rules == DEFAULT_RULES && LogExplainsStore(w) && HighWater(w, u)
    ensures HighWater(Step(cfg, w, call), u)
    ensures XPLevel(w, u) <= XPLevel(Step(cfg, w, call), u)
  {
    if Rejection(cfg, w, call).None? && !call.GetState? {
      AcceptedKeepsMark(cfg, w, call, u);
    }
  }

  /** With the default rules, after any run: the stored experience level is the level of the
      highest total ever reached, and the announced levels rise strictly up to it. */
  lemma {:induction false} LevelIsHighWaterMark(cfg: Config, calls: seq<Call>, u: UserID)
    requires cfg.rules == [LevelUpRule("xp")]
    ensures HighWater(Run(cfg, calls), u)
  {
    if calls == [] {
    } else {
      LevelIsHighWaterMark(cfg, calls[..|calls| - 1], u);
      LogReplaysToStore(cfg, calls[..|calls| - 1]);
      StepKeepsMark(cfg, Run(cfg, calls[..|calls| - 1]), calls[|calls| - 1], u);
    }
  }

  /** Spending points, or anything else, never lowers the level: over any continuation. */
  lemma {:induction false} LevelNeverFalls(cfg: Config, calls: seq<Call>, more: seq<Call>, u: UserID)
    requires cfg.rules == [LevelUpRule("xp")]
    ensures XPLevel(Run(cfg, calls), u) <= XPLevel(Run(cfg, calls + more), u)
  {
    hide Step, HighWater, LogExplainsStore, XPLevel;
    if more == [] {
      assert calls + more == calls;
    } else {
      var n := |more| - 1;
      LevelNeverFalls(cfg, calls, more[..n], u);
      assert (calls + more)[..|calls| + n] == calls + more[..n];
      LevelIsHighWaterMark(cfg, calls + more[..n], u);
      LogReplaysToStore(cfg, calls + more[..n]);
      StepKeepsMark(cfg, Run(cfg, calls + more[..n]), more[n], u);
    }
  }

  /** The service itself, given any calls, ends in the world these theorems are about. */
  method Execute(cfg: Config, calls: seq<Call>) returns (w: World)
    ensures w == Run(cfg, calls) && LogExplainsStore(w)
  {
    hide LogExplainsStore, Step;
    var svc := new GamifyService(cfg);
    for i := 0 to |calls|
      invariant fresh(svc) && fresh(svc.store) && svc.cfg == cfg && svc.Valid()
      invariant svc.TheWorld() == Run(cfg, calls[..i])
    {
      assert calls[..i + 1][..i] == calls[..i];
      match calls[i] {
        case AddPoints(user, metric, delta) => var _ := svc.AddPoints(user, metric, delta);
        case AwardBadge(user, badge) => var _ := svc.AwardBadge(user, badge);
        case GetState(user) => var _ := svc.GetState(user);
      }
    }
    assert calls[..|calls|] == calls;
    w := World(svc.store.users, svc.log);
    LogReplaysToStore(cfg, calls);
  }
}
