/** The gamification service over the in-memory storage, one call at a time, with the events it
    publishes kept as a log.

    User-id normalisation and badge validation are text checks that the theorems never look
    into, so they are parameters: everything holds for any such pair. */
module Service {
  import opened Core
  import opened Memory

  datatype Config = Config(
    normalize: UserID -> Option<UserID>, validBadge: Badge -> bool, rules: seq<Rule>)

  datatype World = World(users: Users, log: seq<Event>)

  const EMPTY_WORLD := World(map[], [])

  datatype Call =
    | AddPoints(user: UserID, metric: Metric, delta: int64)
    | AwardBadge(user: UserID, badge: Badge)
    | GetState(user: UserID)

  // ----- The log -----

  /** What one event says about the users. */
  function ApplyEvent(users: Users, e: Event): Users {
    var st := View(users, e.user);
    match e
    case PointsAdded(u, m, d, t) =>
      var sum := Get(st.points, m) + d;
      if MIN_INT64 <= sum <= MAX_INT64 then users[u := st.(points := st.points[m := sum])] else users
    case BadgeAwarded(u, b) => users[u := st.(badges := st.badges + {b})]
    case LevelUp(u, m, l) => users[u := st.(levels := st.levels[m := l])]
    case AchievementUnlocked(_, _) => users
  }

  /** The users rebuilt from a log alone. */
  function Rebuild(log: seq<Event>): Users {
    if log == [] then map[] else ApplyEvent(Rebuild(log[..|log| - 1]), log[|log| - 1])
  }

  // ----- One call -----

  /** A storage change together with the event that announces it. */
  function Emit(w: World, e: Event): World {
    World(ApplyEvent(w.users, e), w.log + [e])
  }

  function EmitAll(w: World, es: seq<Event>): World {
    if es == [] then w else Emit(EmitAll(w, es[..|es| - 1]), es[|es| - 1])
  }

  /** The error a call returns, if any. */
  function Rejection(cfg: Config, w: World, call: Call): Option<Error> {
    match call
    case AddPoints(user, metric, delta) =>
      if delta == 0 then Some(ZeroDelta)
      else if cfg.normalize(user).None? then Some(EmptyUserID)
      else
        var r := AddSafe(Get(View(w.users, cfg.normalize(user).value).points, metric), delta);
        if r.Err? then Some(r.error) else None
    case AwardBadge(user, badge) =>
      if cfg.normalize(user).None? then Some(EmptyUserID)
      else if !cfg.validBadge(badge) then Some(InvalidBadge)
      else None
    case GetState(user) => None
  }

  /** The events an accepted call publishes, in order. */
  function Emitted(cfg: Config, w: World, call: Call): seq<Event>
    requires Rejection(cfg, w, call).None?
  {
    match call
    case AddPoints(user, metric, delta) =>
      var u := cfg.normalize(user).value;
      var total := AddSafe(Get(View(w.users, u).points, metric), delta).value;
      var added := PointsAdded(u, metric, delta, total);
      [added] + Derived(cfg.rules, View(ApplyEvent(w.users, added), u), added)
    case AwardBadge(user, badge) => [BadgeAwarded(cfg.normalize(user).value, badge)]
    case GetState(user) => []
  }

  /** What a call does. An overflow is found only after the user's record is created. */
  function Step(cfg: Config, w: World, call: Call): World {
    match Rejection(cfg, w, call)
    case Some(IntegerOverflow) => w.(users := Touch(w.users, cfg.normalize(call.user).value))
    case Some(_) => w
    case None =>
      if call.GetState? then w.(users := Touch(w.users, call.user))
      else EmitAll(w, Emitted(cfg, w, call))
  }

  function Run(cfg: Config, calls: seq<Call>): World {
    if calls == [] then EMPTY_WORLD
    else Step(cfg, Run(cfg, calls[..|calls| - 1]), calls[|calls| - 1])
  }

  lemma {:induction false} DerivedAreLevelUps(rules: seq<Rule>, state: UserState, trigger: Event)
    ensures forall d :: d in Derived(rules, state, trigger) ==> d.LevelUp? && d.user == state.userID
  {
    if rules == [] {
    } else {
      DerivedAreLevelUps(rules[..|rules| - 1], state, trigger);
    }
  }

  lemma {:induction false} EmitAllCons(w: World, e: Event, es: seq<Event>)
    ensures EmitAll(w, [e] + es) == EmitAll(Emit(w, e), es)
  {
    hide Emit;
    var all := [e] + es;
    if es == [] {
      assert all[..0] == [];
    } else {
      EmitAllCons(w, e, es[..|es| - 1]);
      assert all[..|all| - 1] == [e] + es[..|es| - 1];
    }
  }

  /** Level-ups of one user touch the levels of that user and nothing else. */
  lemma {:induction false} LevelUpsOnly(w: World, es: seq<Event>, u: UserID, v: UserID)
    requires forall e :: e in es ==> e.LevelUp? && e.user == u
    ensures EmitAll(w, es).log == w.log + es
    ensures v != u ==> View(EmitAll(w, es).users, v) == View(w.users, v)
    ensures View(EmitAll(w, es).users, u) == View(w.users, u).(levels := View(EmitAll(w, es).users, u).levels)
  {
    if es == [] {
    } else {
      assert es == es[..|es| - 1] + [es[|es| - 1]] && es[|es| - 1] in es;
      LevelUpsOnly(w, es[..|es| - 1], u, v);
    }
  }

  /** Every record is filed under its own user. */
  ghost predicate Filed(users: Users) {
    forall u :: View(users, u).userID == u
  }

  lemma FiledUnderOwnID(users: Users, u: UserID)
    requires Filed(users)
    ensures View(users, u).userID == u
  {
  }

  lemma FiledPut(users: Users, u: UserID, st: UserState)
    requires Filed(users) && st.userID == View(users, u).userID
    ensures Filed(users[u := st])
  {
    var users' := users[u := st];
    forall v ensures View(users', v).userID == v {
      assert View(users, v).userID == v;
    }
  }

  /** What a reader sees of an add and of the level-ups that follow it. */
  lemma AddEffect(w: World, added: Event, derived: seq<Event>)
    requires Filed(w.users) && added.PointsAdded?
    requires added.total == Get(View(w.users, added.user).points, added.metric) + added.delta
    requires forall e :: e in derived ==> e.LevelUp? && e.user == added.user
    ensures var u, w' := added.user, EmitAll(w, [added] + derived);
            var before, after := View(w.users, u), View(w'.users, u);
            && w'.log == w.log + [added] + derived
            && after == before.(points := before.points[added.metric := added.total], levels := after.levels)
            && (forall v :: v != u ==> View(w'.users, v) == View(w.users, v))
            && Filed(w'.users)
  {
    hide EmitAll;
    EmitAllCons(w, added, derived);
    forall v
      ensures var u, w1, w' := added.user, Emit(w, added), EmitAll(w, [added] + derived);
              && w'.log == w1.log + derived
              && (v != u ==> View(w'.users, v) == View(w1.users, v) == View(w.users, v))
              && View(w'.users, u) == View(w1.users, u).(levels := View(w'.users, u).levels)
    {
      LevelUpsOnly(Emit(w, added), derived, added.user, v);
    }
  }

  // ----- The service itself -----

  class GamifyService {
    const cfg: Config

    const store: Store

    var log: seq<Event>

    ghost function TheWorld(): World
      reads this, store
    {
      World(store.users, log)
    }

    ghost predicate Valid()
      reads this, store
    {
      Filed(store.users)
    }

    constructor (cfg: Config)
      ensures Valid() && this.cfg == cfg && fresh(store) && TheWorld() == EMPTY_WORLD
    {
      this.cfg := cfg;
      this.store := new Store();
      this.log := [];
    }

    method Publish(e: Event)
      modifies `log
      ensures log == old(log) + [e]
    {
      log := log + [e];
    }

    /** `simpleRuleEngine.Evaluate` */
    method Evaluate(state: UserState, trigger: Event) returns (out: seq<Event>)
      ensures out == Derived(cfg.rules, state, trigger)
    {
      out := [];
      for i := 0 to |cfg.rules|
        invariant out == Derived(cfg.rules[..i], state, trigger)
      {
        assert cfg.rules[..i + 1][..i] == cfg.rules[..i];
        out := out + EvaluateRule(cfg.rules[i], state, trigger);
      }
      assert cfg.rules[..|cfg.rules|] == cfg.rules;
    }

    /** The loop over derived events; the rules of this model derive level-ups only. */
    method PublishDerived(derived: seq<Event>)
      requires forall d :: d in derived ==> d.LevelUp?
      modifies this, store
      ensures TheWorld() == EmitAll(old(TheWorld()), derived)
    {
      for i := 0 to |derived|
        invariant TheWorld() == EmitAll(old(TheWorld()), derived[..i])
      {
        assert derived[..i + 1][..i] == derived[..i];
        var d := derived[i];
        if d.LevelUp? {
          store.SetLevel(d.user, d.metric, d.level);
        }
        Publish(d);
      }
      assert derived[..|derived|] == derived;
    }

    method AddPoints(user: UserID, metric: Metric, delta: int64) returns (r: Result<int64>)
      requires Valid()
      modifies this, store
      ensures Valid()
      ensures TheWorld() == Step(cfg, old(TheWorld()), Call.AddPoints(user, metric, delta))
      ensures r.Err? <==> Rejection(cfg, old(TheWorld()), Call.AddPoints(user, metric, delta)).Some?
      ensures r.Err? ==> Rejection(cfg, old(TheWorld()), Call.AddPoints(user, metric, delta)).value == r.error
      ensures delta == 0 ==> r == Err(ZeroDelta)
      ensures delta != 0 && cfg.normalize(user).None? ==> r == Err(EmptyUserID)
      ensures delta != 0 && cfg.normalize(user).Some? ==>
                var sum := Get(View(old(store.users), cfg.normalize(user).value).points, metric) + delta;
                r == if -0x8000_0000_0000_0000 <= sum <= 0x7fff_ffff_ffff_ffff then Ok(sum) else Err(IntegerOverflow)
      ensures r.Err? ==> log == old(log) && forall v :: View(store.users, v) == View(old(store.users), v)
      ensures r.Ok? ==>
                var u := cfg.normalize(user).value;
                var before, after := View(old(store.users), u), View(store.users, u);
                && old(log) + [PointsAdded(u, metric, delta, r.value)] <= log
                && (forall k :: |old(log)| < k < |log| ==> log[k].LevelUp? && log[k].user == u)
                && after == before.(points := before.points[metric := r.value], levels := after.levels)
                && forall v :: v != u ==> View(store.users, v) == View(old(store.users), v)
    {
      hide EmitAll, Derived, Filed;
      if delta == 0 {
        return Err(ZeroDelta);
      }
      var normalized := cfg.normalize(user);
      if normalized.None? {
        return Err(EmptyUserID);
      }
      var u := normalized.value;
      r := store.AddPoints(u, metric, delta);
      if r.Err? {
        FiledPut(old(store.users), u, View(old(store.users), u));
        return;
      }
      var ev := PointsAdded(u, metric, delta, r.value);
      Publish(ev);
      ghost var added := Emit(old(TheWorld()), ev);
      assert TheWorld() == added;
      var state := store.GetState(u);
      assert TheWorld() == added;
      var derived := Evaluate(state, ev);
      DerivedAreLevelUps(cfg.rules, state, ev);
      PublishDerived(derived);
      EmitAllCons(old(TheWorld()), ev, derived);
      FiledUnderOwnID(old(store.users), u);
      AddEffect(old(TheWorld()), ev, derived);
    }

    method AwardBadge(user: UserID, badge: Badge) returns (r: Result<()>)
      requires Valid()
      modifies this, store
      ensures Valid()
      ensures TheWorld() == Step(cfg, old(TheWorld()), Call.AwardBadge(user, badge))
      ensures r == match Rejection(cfg, old(TheWorld()), Call.AwardBadge(user, badge))
                   case Some(e) => Err(e)
                   case None => Ok(())
      ensures cfg.normalize(user).None? ==> r == Err(EmptyUserID)
      ensures cfg.normalize(user).Some? && !cfg.validBadge(badge) ==> r == Err(InvalidBadge)
      ensures cfg.normalize(user).None? || !cfg.validBadge(badge) ==>
                log == old(log) && store.users == old(store.users)
      ensures cfg.normalize(user).Some? && cfg.validBadge(badge) ==>
                var u := cfg.normalize(user).value;
                var before := View(old(store.users), u);
                && r == Ok(()) && log == old(log) + [BadgeAwarded(u, badge)]
                && View(store.users, u) == before.(badges := before.badges + {badge})
                && forall v :: v != u ==> View(store.users, v) == View(old(store.users), v)
    {
      var normalized := cfg.normalize(user);
      if normalized.None? {
        return Err(EmptyUserID);
      }
      if !cfg.validBadge(badge) {
        return Err(InvalidBadge);
      }
      store.AwardBadge(normalized.value, badge);
      FiledPut(old(store.users), normalized.value, store.users[normalized.value]);
      Publish(BadgeAwarded(normalized.value, badge));
      EmitAllCons(old(TheWorld()), BadgeAwarded(normalized.value, badge), []);
      r := Ok(());
    }

    method GetState(user: UserID) returns (state: UserState)
      requires Valid()
      modifies store
      ensures Valid()
      ensures TheWorld() == Step(cfg, old(TheWorld()), Call.GetState(user))
      ensures state == View(old(store.users), user)
      ensures forall v :: View(store.users, v) == View(old(store.users), v)
    {
      state := store.GetState(user);
      FiledPut(old(store.users), user, state);
    }
  }
}
