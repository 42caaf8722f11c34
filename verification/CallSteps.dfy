/** What each kind of step of a concurrent `AddPoints` call does to what readers see, to the log
    and to the history of adds. */
module CallSteps {
  import opened Core
  import opened Adds
  import I = Interleaving

  /** Nothing a reader sees differs. */
  ghost predicate ReadersAgree(s: I.State, t: I.State) {
    forall v :: I.View(t, v) == I.View(s, v)
  }

  /** Only one user's state is replaced. */
  ghost predicate OneView(s: I.State, t: I.State, u: UserID, st: UserState) {
    forall v :: I.View(t, v) == if v == u then st else I.View(s, v)
  }

  /** A step under the lock that replaces the user's state. */
  lemma Replaced(s: I.State, s': I.State, u: UserID, st: UserState, v: UserID)
    requires I.IndexOk(s) && u in s.index && st.userID == u
    requires s'.index == s.index && s'.nextRec == s.nextRec && s'.records == s.records[s.index[u] := st]
    ensures I.IndexOk(s')
    ensures I.View(s', v) == if v == u then st else I.View(s, v)
  {
    assert s'.records.Keys == s.records.Keys;
    I.OnlyOneUserChanges(s, s', u);
  }

  /** Looking the record up, creating it if need be. */
  lemma LookedUp(s: I.State, id: I.CallID) returns (t: I.State)
    requires id in s.calls && (s.calls[id].pc.Load? || s.calls[id].pc.LoadOrStore?) && I.IndexOk(s)
    ensures t == I.Advance(s, id) && id in t.calls && I.IndexOk(t) && ReadersAgree(s, t)
    ensures t.log == s.log && t.history == s.history
    ensures var c, c' := s.calls[id], t.calls[id];
            c' == c.(pc := c'.pc) && (c'.pc.LoadOrStore? || c'.pc.Access?) && c'.pc.purpose == c.pc.purpose
  {
    t := I.Advance(s, id);
    assert forall v :: I.View(t, v) == I.View(s, v);
  }

  /** The add under the lock. */
  lemma AddUnderLock(s: I.State, id: I.CallID) returns (t: I.State)
    requires id in s.calls && s.calls[id].user in s.index && I.IndexOk(s)
    requires s.calls[id].pc == I.Access(s.index[s.calls[id].user], I.ForAdd)
    ensures t == I.Advance(s, id) && id in t.calls && I.IndexOk(t) && t.log == s.log
    ensures var c := s.calls[id];
            var st := I.View(s, c.user);
            match AddSafe(Get(st.points, c.metric), c.delta)
            case Err(_) =>
              && t.calls[id] == c.(pc := I.Done) && ReadersAgree(s, t) && t.history == s.history
            case Ok(total) =>
              && t.calls[id] == c.(pc := I.Announce(total))
              && t.history == s.history + [Added(c.user, c.metric, c.delta, total)]
              && OneView(s, t, c.user, st.(points := st.points[c.metric := total]))
  {
    t := I.Advance(s, id);
    var c := s.calls[id];
    var st := I.View(s, c.user);
    var r := AddSafe(Get(st.points, c.metric), c.delta);
    if r.Ok? {
      var st' := st.(points := st.points[c.metric := r.value]);
      forall v
        ensures I.IndexOk(t)
        ensures I.View(t, v) == if v == c.user then st' else I.View(s, v)
      {
        Replaced(s, t, c.user, st', v);
      }
    }
  }

  /** The snapshot and the rule. */
  lemma SnapshotUnderLock(s: I.State, id: I.CallID, total: int64) returns (t: I.State)
    requires id in s.calls && s.calls[id].user in s.index && I.IndexOk(s)
    requires s.calls[id].pc == I.Access(s.index[s.calls[id].user], I.ForSnapshot)
    ensures t == I.Advance(s, id) && id in t.calls && I.IndexOk(t) && ReadersAgree(s, t)
    ensures t.log == s.log && t.history == s.history
    ensures var c := s.calls[id];
            var derived := EvaluateRule(LevelUpRule(METRIC_XP), I.View(s, c.user),
                                        PointsAdded(c.user, c.metric, c.delta, total));
            if derived == [] then t.calls[id] == c.(pc := I.Done)
            else derived == [LevelUp(c.user, METRIC_XP, derived[0].level)]
                 && t.calls[id] == c.(pc := I.Load(I.ForSetLevel(derived[0].level)))
  {
    t := I.Advance(s, id);
    assert forall v :: I.View(t, v) == I.View(s, v);
  }

  /** Writing the level under the lock. */
  lemma LevelUnderLock(s: I.State, id: I.CallID, level: int) returns (t: I.State)
    requires id in s.calls && s.calls[id].user in s.index && I.IndexOk(s)
    requires s.calls[id].pc == I.Access(s.index[s.calls[id].user], I.ForSetLevel(level))
    ensures t == I.Advance(s, id) && id in t.calls && I.IndexOk(t)
    ensures t.log == s.log && t.history == s.history
    ensures var c := s.calls[id];
            var st := I.View(s, c.user);
            && t.calls[id] == c.(pc := I.AnnounceLevel(level))
            && OneView(s, t, c.user, st.(levels := st.levels[METRIC_XP := level]))
  {
    t := I.Advance(s, id);
    var u := s.calls[id].user;
    var st := I.View(s, u);
    var st' := st.(levels := st.levels[METRIC_XP := level]);
    forall v
      ensures I.IndexOk(t)
      ensures I.View(t, v) == if v == u then st' else I.View(s, v)
    {
      Replaced(s, t, u, st', v);
    }
  }

  /** Publishing, and what the call does next. */
  lemma Published(s: I.State, id: I.CallID) returns (t: I.State)
    requires id in s.calls && (s.calls[id].pc.Announce? || s.calls[id].pc.AnnounceLevel?) && I.IndexOk(s)
    ensures t == I.Advance(s, id) && id in t.calls && I.IndexOk(t) && ReadersAgree(s, t)
    ensures t.history == s.history
    ensures var c := s.calls[id];
            if c.pc.Announce?
            then && t.log == s.log + [PointsAdded(c.user, c.metric, c.delta, c.pc.total)]
                 && t.calls[id] == c.(pc := I.Load(I.ForSnapshot))
            else && t.log == s.log + [LevelUp(c.user, METRIC_XP, c.pc.level)]
                 && t.calls[id] == c.(pc := I.Done)
  {
    t := I.Advance(s, id);
    assert forall v :: I.View(t, v) == I.View(s, v);
  }
}
