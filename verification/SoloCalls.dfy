/** The step-by-step model and the call-by-call model agree: a call whose steps are not
    interleaved with others' does what the serial service does. */
module SoloCalls {
  import opened Core
  import M = Memory
  import S = Service
  import R = SerialRuns
  import I = Interleaving
  import L = LevelMark
  import opened CallSteps

  /** Every reader sees the same, and the logs are equal. */
  ghost predicate Matches(s: I.State, w: S.World) {
    (forall u :: I.View(s, u) == M.View(w.users, u)) && s.log == w.log
  }

  /** `n` steps of one call, nobody else moving. */
  function Drive(s: I.State, id: I.CallID, n: nat): (t: I.State)
    requires id in s.calls
    ensures id in t.calls
  {
    if n == 0 then s else I.Advance(Drive(s, id, n - 1), id)
  }

  lemma {:induction false} DriveAdds(s: I.State, id: I.CallID, a: nat, b: nat)
    requires id in s.calls
    ensures Drive(s, id, a + b) == Drive(Drive(s, id, a), id, b)
  {
    hide I.Advance;
    if b == 0 {
    } else {
      DriveAdds(s, id, a, b - 1);
      assert a + b - 1 == a + (b - 1);
    }
  }

  /** Finding the record, created if need be, changes nothing a reader sees. */
  lemma Resolve(s: I.State, id: I.CallID, p: I.Purpose) returns (n: nat, t: I.State)
    requires id in s.calls && s.calls[id].pc == I.Load(p) && I.IndexOk(s)
    ensures t == Drive(s, id, n) && id in t.calls && I.IndexOk(t)
    ensures var u := s.calls[id].user;
            u in t.index && t.calls[id] == s.calls[id].(pc := I.Access(t.index[u], p))
    ensures ReadersAgree(s, t) && t.log == s.log
  {
    var u := s.calls[id].user;
    if u in s.index {
      n := 1;
      t := I.Advance(s, id);
      assert Drive(s, id, 0) == s;
    } else {
      n := 2;
      var t1 := I.Advance(s, id);
      assert Drive(s, id, 0) == s && Drive(s, id, 1) == t1;
      t := I.Advance(t1, id);
    }
    assert forall v :: I.View(t, v) == I.View(s, v);
  }

  lemma DriveOne(s: I.State, id: I.CallID, k: nat)
    requires id in s.calls
    ensures Drive(s, id, k + 1) == I.Advance(Drive(s, id, k), id)
  {
    hide I.Advance;
  }

  /** A replaced state and its announcement amount to one emitted event. */
  lemma EmittedOne(s: I.State, t: I.State, w: S.World, e: Event, st: UserState)
    requires Matches(s, w) && t.log == s.log + [e] && OneView(s, t, e.user, st)
    requires S.ApplyEvent(w.users, e) == w.users[e.user := st]
    ensures Matches(t, S.Emit(w, e))
  {
    forall v ensures I.View(t, v) == M.View(w.users[e.user := st], v) {
      assert I.View(s, v) == M.View(w.users, v);
    }
  }

  lemma OneViewThrough(s: I.State, s1: I.State, s2: I.State, t: I.State, u: UserID, st: UserState)
    requires ReadersAgree(s, s1) && OneView(s1, s2, u, st) && ReadersAgree(s2, t)
    ensures OneView(s, t, u, st)
  {
    forall v ensures I.View(t, v) == if v == u then st else I.View(s, v) {
      assert I.View(s1, v) == I.View(s, v) && I.View(t, v) == I.View(s2, v);
    }
  }

  /** From a chosen level to its announcement: one emitted level-up. */
  lemma LevelPhase(s: I.State, w: S.World, id: I.CallID, level: int) returns (n: nat, t: I.State)
    requires id in s.calls && s.calls[id].pc == I.Load(I.ForSetLevel(level)) && I.IndexOk(s)
    requires Matches(s, w)
    ensures t == Drive(s, id, n) && id in t.calls && t.calls[id].pc == I.Done
    ensures Matches(t, S.Emit(w, LevelUp(s.calls[id].user, METRIC_XP, level)))
  {
    hide I.Advance, Drive, I.IndexOk;
    var u := s.calls[id].user;
    var k, s1 := Resolve(s, id, I.ForSetLevel(level));
    var s2 := LevelUnderLock(s1, id, level);
    t := Published(s2, id);
    n := k + 2;
    DriveOne(s, id, k);
    DriveOne(s, id, k + 1);
    var st := I.View(s1, u).(levels := I.View(s1, u).levels[METRIC_XP := level]);
    OneViewThrough(s, s1, s2, t, u, st);
    assert I.View(s1, u) == I.View(s, u) == M.View(w.users, u);
    EmittedOne(s, t, w, LevelUp(u, METRIC_XP, level), st);
  }

  /** From the request to the announcement of the added points: one emitted add, or nothing. */
  lemma AddPhase(s: I.State, w: S.World, id: I.CallID) returns (n: nat, t: I.State)
    requires id in s.calls && s.calls[id].pc == I.Load(I.ForAdd) && I.IndexOk(s) && Matches(s, w)
    ensures t == Drive(s, id, n) && id in t.calls && I.IndexOk(t)
    ensures var c := s.calls[id];
            match AddSafe(Get(M.View(w.users, c.user).points, c.metric), c.delta)
            case Err(_) => t.calls[id].pc == I.Done && Matches(t, w)
            case Ok(total) =>
              && t.calls[id] == c.(pc := I.Load(I.ForSnapshot))
              && Matches(t, S.Emit(w, PointsAdded(c.user, c.metric, c.delta, total)))
  {
    hide I.Advance, Drive, I.IndexOk;
    var c := s.calls[id];
    var k, s1 := Resolve(s, id, I.ForAdd);
    assert I.View(s1, c.user) == I.View(s, c.user) == M.View(w.users, c.user);
    var s2 := AddUnderLock(s1, id);
    DriveOne(s, id, k);
    var r := AddSafe(Get(I.View(s1, c.user).points, c.metric), c.delta);
    if r.Err? {
      n, t := k + 1, s2;
      forall v ensures I.View(t, v) == M.View(w.users, v) {
        assert I.View(t, v) == I.View(s1, v) == I.View(s, v) == M.View(w.users, v);
      }
    } else {
      t := Published(s2, id);
      n := k + 2;
      DriveOne(s, id, k + 1);
      var st := I.View(s1, c.user).(points := I.View(s1, c.user).points[c.metric := r.value]);
      OneViewThrough(s, s1, s2, t, c.user, st);
      EmittedOne(s, t, w, PointsAdded(c.user, c.metric, c.delta, r.value), st);
    }
  }

  /** The snapshot, and whatever level-up it leads to. */
  lemma RulePhase(s: I.State, w: S.World, id: I.CallID, total: int64) returns (n: nat, t: I.State)
    requires id in s.calls && s.calls[id].pc == I.Load(I.ForSnapshot) && I.IndexOk(s) && Matches(s, w)
    ensures t == Drive(s, id, n) && id in t.calls && t.calls[id].pc == I.Done
    ensures var c := s.calls[id];
            Matches(t, S.EmitAll(w, EvaluateRule(LevelUpRule(METRIC_XP), M.View(w.users, c.user),
                                                 PointsAdded(c.user, c.metric, c.delta, total))))
  {
    hide I.Advance, Drive, I.IndexOk, EvaluateRule, S.EmitAll, S.Emit;
    var c := s.calls[id];
    var k, s1 := Resolve(s, id, I.ForSnapshot);
    assert I.View(s1, c.user) == I.View(s, c.user) == M.View(w.users, c.user);
    var s2 := SnapshotUnderLock(s1, id, total);
    DriveOne(s, id, k);
    forall v ensures I.View(s2, v) == M.View(w.users, v) {
      assert I.View(s2, v) == I.View(s1, v) == I.View(s, v) == M.View(w.users, v);
    }
    var derived := EvaluateRule(LevelUpRule(METRIC_XP), M.View(w.users, c.user),
                                PointsAdded(c.user, c.metric, c.delta, total));
    R.EmitAllSmall(w, LevelUp(c.user, METRIC_XP, if derived == [] then 0 else s2.calls[id].pc.purpose.level));
    if derived == [] {
      n, t := k + 1, s2;
    } else {
      var j;
      j, t := LevelPhase(s2, w, id, s2.calls[id].pc.purpose.level);
      DriveAdds(s, id, k + 1, j);
      n := k + 1 + j;
    }
  }

  lemma EmitUsers(w: S.World, e: Event)
    ensures S.Emit(w, e).users == S.ApplyEvent(w.users, e)
  {
  }

  /** A call driven to its end alone does exactly what the service's `AddPoints` does, whatever
      the storage held: same log, same state for every reader. */
  lemma SoloCallIsServiceCall(s: I.State, w: S.World, id: I.CallID, cfg: S.Config,
                              user: UserID, metric: Metric, delta: int64)
    returns (n: nat)
    requires I.IndexOk(s) && Matches(s, w) && id !in s.calls && delta != 0
    requires cfg.rules == DEFAULT_RULES && cfg.normalize(user).Some?
    ensures var s0 := I.Apply(s, I.Begin(id, cfg.normalize(user).value, metric, delta));
            && id in s0.calls && Drive(s0, id, n).calls[id].pc == I.Done
            && Matches(Drive(s0, id, n), S.Step(cfg, w, S.AddPoints(user, metric, delta)))
  {
    hide I.Advance, Drive, EvaluateRule, S.EmitAll, S.Emit;
    var u := cfg.normalize(user).value;
    var s0 := I.Apply(s, I.Begin(id, u, metric, delta));
    assert forall v :: I.View(s0, v) == I.View(s, v);
    var t;
    n, t := AddPhase(s0, w, id);
    var r := AddSafe(Get(M.View(w.users, u).points, metric), delta);
    if r.Ok? {
      var added := PointsAdded(u, metric, delta, r.value);
      var w1 := S.Emit(w, added);
      var k, t2 := RulePhase(t, w1, id, r.value);
      DriveAdds(s0, id, n, k);
      n := n + k;
      assert w1.users == S.ApplyEvent(w.users, added) by {
        EmitUsers(w, added);
      }
      var state := M.View(w1.users, u);
      R.DefaultDerived(state, added);
      S.EmitAllCons(w, added, EvaluateRule(LevelUpRule(METRIC_XP), state, added));
    }
  }

  // ----- Whole runs -----

  ghost predicate AllDone(s: I.State) {
    forall id :: id in s.calls ==> s.calls[id].pc.Done?
  }

  /** No call begins while another is under way. */
  ghost predicate NoOverlap(moves: seq<I.Move>) {
    forall i :: 0 <= i < |moves| && moves[i].Begin? ==> AllDone(I.Run(moves[..i]))
  }

  /** Runs without overlap are among those that keep the level at the mark. */
  lemma NoOverlapIsSerialised(moves: seq<I.Move>, u: UserID)
    requires NoOverlap(moves)
    ensures L.Serialised(moves, u)
  {
    hide I.Run;
  }

  /** Only one call changes while it is driven. */
  lemma {:induction false} DriveChangesOneCall(s: I.State, id: I.CallID, n: nat)
    requires id in s.calls
    ensures Drive(s, id, n).calls == s.calls[id := Drive(s, id, n).calls[id]]
  {
    hide I.Advance;
    if n == 0 {
    } else {
      DriveChangesOneCall(s, id, n - 1);
      var c := I.AdvanceEffect(Drive(s, id, n - 1), id);
    }
  }

  lemma RunAppend(moves: seq<I.Move>, m: I.Move)
    ensures I.Run(moves + [m]) == I.Apply(I.Run(moves), m)
  {
    assert (moves + [m])[..|moves|] == moves;
  }

  lemma NoOverlapAppend(moves: seq<I.Move>, m: I.Move)
    requires NoOverlap(moves) && (m.Begin? ==> AllDone(I.Run(moves)))
    ensures NoOverlap(moves + [m])
  {
    hide AllDone;
    var more := moves + [m];
    forall i | 0 <= i < |more| && more[i].Begin? ensures AllDone(I.Run(more[..i])) {
      assert more[..i] == moves[..i];
      assert moves[..|moves|] == moves;
    }
  }

  /** Driving a call is a stretch of moves of that call. */
  lemma {:induction false} DriveIsRun(moves: seq<I.Move>, id: I.CallID, n: nat) returns (more: seq<I.Move>)
    requires id in I.Run(moves).calls && NoOverlap(moves)
    ensures NoOverlap(more) && I.Run(more) == Drive(I.Run(moves), id, n)
  {
    hide I.Advance, I.Run, NoOverlap;
    if n == 0 {
      more := moves;
    } else {
      var before := DriveIsRun(moves, id, n - 1);
      more := before + [I.Go(id)];
      RunAppend(before, I.Go(id));
      NoOverlapAppend(before, I.Go(id));
    }
  }

  lemma IndexOfRun(moves: seq<I.Move>)
    ensures I.IndexOk(I.Run(moves))
  {
    I.RunKeepsInv(moves);
  }

  /** One more serial call, as moves. */
  lemma OneMoreCall(moves: seq<I.Move>, w: S.World, id: I.CallID, cfg: S.Config,
                    user: UserID, metric: Metric, delta: int64)
    returns (more: seq<I.Move>)
    requires cfg.rules == DEFAULT_RULES && NoOverlap(moves) && AllDone(I.Run(moves)) && Matches(I.Run(moves), w)
    requires forall k :: k in I.Run(moves).calls ==> k < id
    ensures NoOverlap(more) && AllDone(I.Run(more))
    ensures Matches(I.Run(more), S.Step(cfg, w, S.AddPoints(user, metric, delta)))
    ensures forall k :: k in I.Run(more).calls ==> k <= id
  {
    hide I.Advance, I.Run, NoOverlap, I.Inv, Drive, S.EmitAll, Matches;
    var s := I.Run(moves);
    if delta == 0 || cfg.normalize(user).None? {
      more := moves;
    } else {
      assert I.IndexOk(s) by {
        IndexOfRun(moves);
      }
      var m := I.Begin(id, cfg.normalize(user).value, metric, delta);
      var n := SoloCallIsServiceCall(s, w, id, cfg, user, metric, delta);
      var begun := moves + [m];
      RunAppend(moves, m);
      NoOverlapAppend(moves, m);
      more := DriveIsRun(begun, id, n);
      DriveChangesOneCall(I.Apply(s, m), id, n);
    }
  }

  lemma NothingOverlaps()
    ensures NoOverlap([])
  {
  }

  /** Every serial run of adds is the outcome of an interleaving in which no two calls overlap:
      same log, same state for every reader. */
  lemma {:induction false} SerialRunIsInterleaving(cfg: S.Config, calls: seq<S.Call>) returns (moves: seq<I.Move>)
    requires cfg.rules == DEFAULT_RULES && forall k :: 0 <= k < |calls| ==> calls[k].AddPoints?
    ensures NoOverlap(moves) && AllDone(I.Run(moves)) && Matches(I.Run(moves), S.Run(cfg, calls))
    ensures forall k :: k in I.Run(moves).calls ==> k < |calls|
  {
    hide S.Step, NoOverlap, I.Apply;
    if calls == [] {
      moves := [];
      assert NoOverlap(moves) by {
        NothingOverlaps();
      }
    } else {
      var n := |calls| - 1;
      var before := SerialRunIsInterleaving(cfg, calls[..n]);
      var c := calls[n];
      moves := OneMoreCall(before, S.Run(cfg, calls[..n]), n, cfg, c.user, c.metric, c.delta);
    }
  }
}
