/** `AddPoints` calls running concurrently over the in-memory storage.

    Each storage operation finds the user's record (a load, and after a miss a load-or-store of a
    record made beforehand), then works on it under its lock; publishing comes in between. Every
    one of these is a step of its own, and the steps of different calls interleave freely. */
module Interleaving {
  import opened Core
  import opened Numbers
  import opened Adds

  type RecID = nat

  type CallID = nat

  /** Which storage operation a call is carrying out. */
  datatype Purpose = ForAdd | ForSnapshot | ForSetLevel(level: int)

  datatype Pc =
    | Load(purpose: Purpose)               // about to look the record up
    | LoadOrStore(purpose: Purpose)        // missed; a fresh record is at hand
    | Access(rec: RecID, purpose: Purpose) // about to lock the record
    | Announce(total: int64)               // about to publish the added points
    | AnnounceLevel(level: int)            // about to publish the level-up
    | Done

  datatype CallState = CallState(user: UserID, metric: Metric, delta: int64, pc: Pc)

  datatype State = State(
    index: map<UserID, RecID>, records: map<RecID, UserState>, nextRec: RecID,
    calls: map<CallID, CallState>, log: seq<Event>, history: seq<Added>)

  const START := State(map[], map[], 0, map[], [], [])

  datatype Move = Begin(id: CallID, user: UserID, metric: Metric, delta: int64) | Go(id: CallID)

  function View(s: State, u: UserID): UserState {
    if u in s.index && s.index[u] in s.records then s.records[s.index[u]] else EmptyState(u)
  }

  function SetPc(s: State, id: CallID, pc: Pc): State
    requires id in s.calls
  {
    s.(calls := s.calls[id := s.calls[id].(pc := pc)])
  }

  function SetRecord(s: State, rec: RecID, st: UserState): State {
    s.(records := s.records[rec := st])
  }

  /** The work done under the record's lock. */
  function Locked(s: State, id: CallID, rec: RecID, purpose: Purpose): State
    requires id in s.calls && rec in s.records
  {
    var c, st := s.calls[id], s.records[rec];
    match purpose
    case ForAdd =>
      (match AddSafe(Get(st.points, c.metric), c.delta)
       case Err(_) => SetPc(s, id, Done)
       case Ok(total) =>
         SetPc(SetRecord(s, rec, st.(points := st.points[c.metric := total]))
               .(history := s.history + [Added(c.user, c.metric, c.delta, total)]),
               id, Announce(total)))
    case ForSnapshot =>
      // the rule looks at the trigger's type and metric only
      var trigger := PointsAdded(c.user, c.metric, c.delta, 0);
      var derived := EvaluateRule(LevelUpRule(METRIC_XP), st, trigger);
      SetPc(s, id, if derived == [] then Done else Load(ForSetLevel(derived[0].level)))
    case ForSetLevel(level) =>
      SetPc(SetRecord(s, rec, st.(levels := st.levels[METRIC_XP := level])), id, AnnounceLevel(level))
  }

  /** One step of one call. */
  function Advance(s: State, id: CallID): State
    requires id in s.calls
  {
    var c := s.calls[id];
    match c.pc
    case Load(p) =>
      SetPc(s, id, if c.user in s.index then Access(s.index[c.user], p) else LoadOrStore(p))
    case LoadOrStore(p) =>
      if c.user in s.index then SetPc(s, id, Access(s.index[c.user], p))
      else
        var s' := SetRecord(s, s.nextRec, EmptyState(c.user));
        SetPc(s'.(index := s.index[c.user := s.nextRec], nextRec := s.nextRec + 1),
              id, Access(s.nextRec, p))
    case Access(rec, p) => if rec in s.records then Locked(s, id, rec, p) else s
    case Announce(total) =>
      SetPc(s.(log := s.log + [PointsAdded(c.user, c.metric, c.delta, total)]), id, Load(ForSnapshot))
    case AnnounceLevel(level) =>
      SetPc(s.(log := s.log + [LevelUp(c.user, METRIC_XP, level)]), id, Done)
    case Done => s
  }

  /** A move of the scheduler; one that is not possible changes nothing. */
  function Apply(s: State, m: Move): State {
    match m
    case Begin(id, user, metric, delta) =>
      if id in s.calls || delta == 0 then s
      else s.(calls := s.calls[id := CallState(user, metric, delta, Load(ForAdd))])
    case Go(id) => if id in s.calls then Advance(s, id) else s
  }

  function Run(moves: seq<Move>): State {
    if moves == [] then START else Apply(Run(moves[..|moves| - 1]), moves[|moves| - 1])
  }

  // ----- What the history says -----

  /** A level the history can account for. */
  ghost predicate Earned(h: seq<Added>, u: UserID, level: int) {
    Peak(h, u).Some? && 1 <= level <= DefaultLevel(Peak(h, u).value)
  }

  // ----- The invariant -----

  ghost predicate IndexOk(s: State) {
    && (forall u :: u in s.index ==> s.index[u] in s.records && s.records[s.index[u]].userID == u)
    && (forall r :: r in s.records ==> r < s.nextRec)
  }

  /** Totals are the sums of the successful deltas. */
  ghost predicate TotalsOk(s: State) {
    forall u, m :: Get(View(s, u).points, m) == SumOf(s.history, u, m)
  }

  /** A user's experience total never exceeds its recorded peak once there is one. */
  ghost predicate PeaksOk(s: State) {
    forall u :: METRIC_XP in View(s, u).points ==>
      Peak(s.history, u).Some? && View(s, u).points[METRIC_XP] <= Peak(s.history, u).value
  }

  ghost predicate LevelsOk(s: State) {
    forall u :: METRIC_XP in View(s, u).levels ==>
      Earned(s.history, u, View(s, u).levels[METRIC_XP])
  }

  /** Nothing is announced that did not happen. */
  ghost predicate LogOk(s: State) {
    forall e :: e in s.log ==>
      && (e.PointsAdded? ==> Added(e.user, e.metric, e.delta, e.total) in s.history)
      && (e.LevelUp? ==> e.metric == METRIC_XP && Earned(s.history, e.user, e.level))
  }

  /** After a successful add the user's record exists and holds the metric. */
  ghost predicate HasRecord(s: State, c: CallState) {
    c.user in s.index && c.metric in View(s, c.user).points
  }

  ghost predicate PurposeOk(s: State, c: CallState, p: Purpose) {
    match p
    case ForAdd => true
    case ForSnapshot => HasRecord(s, c)
    case ForSetLevel(l) => HasRecord(s, c) && c.metric == METRIC_XP && Earned(s.history, c.user, l)
  }

  ghost predicate CallOk(s: State, c: CallState) {
    match c.pc
    case Load(p) => PurposeOk(s, c, p)
    case LoadOrStore(p) => PurposeOk(s, c, p)
    case Access(rec, p) => PurposeOk(s, c, p) && c.user in s.index && s.index[c.user] == rec
    case Announce(total) => HasRecord(s, c) && Added(c.user, c.metric, c.delta, total) in s.history
    case AnnounceLevel(l) => c.metric == METRIC_XP && Earned(s.history, c.user, l)
    case Done => true
  }

  /** The part of the invariant that is not about calls. */
  ghost predicate StoreOk(s: State) {
    && IndexOk(s) && TotalsOk(s) && PeaksOk(s) && LevelsOk(s) && LogOk(s)
    && TotalsArePrefixSums(s.history)
  }

  ghost predicate Inv(s: State) {
    && StoreOk(s)
    && forall id :: id in s.calls ==> CallOk(s, s.calls[id])
  }

  /** Nothing a step does takes back what other calls rely on. */
  ghost predicate Grows(s: State, s': State) {
    && (forall u :: u in s.index ==> u in s'.index && s'.index[u] == s.index[u])
    && (forall u, m :: m in View(s, u).points ==> m in View(s', u).points)
    && (forall u, l :: Earned(s.history, u, l) ==> Earned(s'.history, u, l))
    && s.history <= s'.history
  }

  lemma EarnedAppend(h: seq<Added>, a: Added)
    ensures forall u, l :: Earned(h, u, l) ==> Earned(h + [a], u, l)
  {
    HistoryAppend(h, a);
    forall u, l | Earned(h, u, l) ensures Earned(h + [a], u, l) {
      LevelMonotone(Peak(h, u).value, Peak(h + [a], u).value);
    }
  }

  lemma CallSurvives(s: State, s': State, c: CallState)
    requires Grows(s, s') && CallOk(s, c)
    ensures CallOk(s', c)
  {
  }

  lemma OnlyOneUserChanges(s: State, s': State, u: UserID)
    requires IndexOk(s) && u in s.index && s'.index == s.index
    requires s'.records.Keys == s.records.Keys
    requires forall r :: r in s.records && r != s.index[u] ==> s'.records[r] == s.records[r]
    ensures View(s', u) == s'.records[s.index[u]]
    ensures forall v :: v != u ==> View(s', v) == View(s, v)
  {
  }

  lemma CreateKeepsStore(s: State, u: UserID) returns (s': State)
    requires StoreOk(s) && u !in s.index
    ensures s' == SetRecord(s, s.nextRec, EmptyState(u))
                  .(index := s.index[u := s.nextRec], nextRec := s.nextRec + 1)
    ensures StoreOk(s') && Grows(s, s') && forall v :: View(s', v) == View(s, v)
  {
    s' := SetRecord(s, s.nextRec, EmptyState(u))
          .(index := s.index[u := s.nextRec], nextRec := s.nextRec + 1);
    assert forall v :: View(s', v) == View(s, v);
  }

  lemma AddKeepsLog(s: State, s': State, a: Added)
    requires LogOk(s) && s'.log == s.log && s'.history == s.history + [a]
    ensures LogOk(s')
  {
    hide Earned;
    EarnedAppend(s.history, a);
  }

  lemma AddKeepsStore(s: State, u: UserID, m: Metric, delta: int64, total: int64) returns (s': State)
    requires StoreOk(s) && u in s.index && total == Get(View(s, u).points, m) + delta
    ensures var st := View(s, u);
            s' == SetRecord(s, s.index[u], st.(points := st.points[m := total]))
                  .(history := s.history + [Added(u, m, delta, total)])
    ensures StoreOk(s') && Grows(s, s') && m in View(s', u).points
    ensures Added(u, m, delta, total) in s'.history
  {
    hide SumOf, Peak, TotalsArePrefixSums, DefaultLevel, LogOk;
    var st := View(s, u);
    s' := SetRecord(s, s.index[u], st.(points := st.points[m := total]))
          .(history := s.history + [Added(u, m, delta, total)]);
    HistoryAppend(s.history, Added(u, m, delta, total));
    EarnedAppend(s.history, Added(u, m, delta, total));
    AddKeepsLog(s, s', Added(u, m, delta, total));
    PrefixSumsAppend(s.history, Added(u, m, delta, total));
    OnlyOneUserChanges(s, s', u);
  }

  lemma SetLevelKeepsStore(s: State, u: UserID, level: int) returns (s': State)
    requires StoreOk(s) && u in s.index && Earned(s.history, u, level)
    ensures var st := View(s, u);
            s' == SetRecord(s, s.index[u], st.(levels := st.levels[METRIC_XP := level]))
    ensures StoreOk(s') && Grows(s, s')
  {
    var st := View(s, u);
    s' := SetRecord(s, s.index[u], st.(levels := st.levels[METRIC_XP := level]));
    OnlyOneUserChanges(s, s', u);
  }

  lemma PublishKeepsStore(s: State, e: Event) returns (s': State)
    requires StoreOk(s)
    requires e.PointsAdded? ==> Added(e.user, e.metric, e.delta, e.total) in s.history
    requires e.LevelUp? ==> e.metric == METRIC_XP && Earned(s.history, e.user, e.level)
    ensures s' == s.(log := s.log + [e])
    ensures StoreOk(s') && Grows(s, s')
  {
    s' := s.(log := s.log + [e]);
    assert forall u :: View(s', u) == View(s, u);
  }

  lemma SetPcKeepsInv(s: State, s': State, id: CallID, pc: Pc)
    requires StoreOk(s') && Grows(s, s') && Inv(s) && s'.calls == s.calls && id in s.calls
    requires CallOk(s', s.calls[id].(pc := pc))
    ensures Inv(SetPc(s', id, pc))
  {
    var t := SetPc(s', id, pc);
    assert forall u :: View(t, u) == View(s', u);
    forall k | k in t.calls ensures CallOk(t, t.calls[k]) {
      if k != id {
        CallSurvives(s, s', s.calls[k]);
      }
      CallSurvives(s', t, t.calls[k]);
    }
  }

  lemma LockedKeepsInv(s: State, id: CallID, rec: RecID, p: Purpose)
    requires Inv(s) && id in s.calls && s.calls[id].pc == Access(rec, p)
    ensures rec in s.records && Inv(Locked(s, id, rec, p))
  {
    var c := s.calls[id];
    assert CallOk(s, c);
    var st := s.records[rec];
    assert st == View(s, c.user);
    match p
    case ForAdd =>
      var r := AddSafe(Get(st.points, c.metric), c.delta);
      if r.Ok? {
        var s' := AddKeepsStore(s, c.user, c.metric, c.delta, r.value);
        SetPcKeepsInv(s, s', id, Announce(r.value));
      } else {
        SetPcKeepsInv(s, s, id, Done);
      }
    case ForSnapshot =>
      var derived := EvaluateRule(LevelUpRule(METRIC_XP), st, PointsAdded(c.user, c.metric, c.delta, 0));
      if derived == [] {
        SetPcKeepsInv(s, s, id, Done);
      } else {
        LevelCurve(st.points[METRIC_XP]);
        LevelMonotone(st.points[METRIC_XP], Peak(s.history, c.user).value);
        SetPcKeepsInv(s, s, id, Load(ForSetLevel(derived[0].level)));
      }
    case ForSetLevel(level) =>
      var s' := SetLevelKeepsStore(s, c.user, level);
      SetPcKeepsInv(s, s', id, AnnounceLevel(level));
  }

  lemma InvMeans(s: State, id: CallID)
    requires Inv(s) && id in s.calls
    ensures StoreOk(s) && Grows(s, s) && CallOk(s, s.calls[id])
  {
  }

  lemma AdvanceKeepsInv(s: State, id: CallID)
    requires Inv(s) && id in s.calls
    ensures Inv(Advance(s, id))
  {
    hide StoreOk, Grows, Earned, Inv, View, Locked;
    var c := s.calls[id];
    assert StoreOk(s) && Grows(s, s) && CallOk(s, c) by {
      InvMeans(s, id);
    }
    match c.pc
    case Load(p) =>
      SetPcKeepsInv(s, s, id, if c.user in s.index then Access(s.index[c.user], p) else LoadOrStore(p));
    case LoadOrStore(p) =>
      if c.user in s.index {
        SetPcKeepsInv(s, s, id, Access(s.index[c.user], p));
      } else {
        var s' := CreateKeepsStore(s, c.user);
        CallSurvives(s, s', c);
        SetPcKeepsInv(s, s', id, Access(s.nextRec, p));
      }
    case Access(rec, p) => LockedKeepsInv(s, id, rec, p);
    case Announce(total) =>
      var s' := PublishKeepsStore(s, PointsAdded(c.user, c.metric, c.delta, total));
      CallSurvives(s, s', c);
      SetPcKeepsInv(s, s', id, Load(ForSnapshot));
    case AnnounceLevel(level) =>
      var s' := PublishKeepsStore(s, LevelUp(c.user, METRIC_XP, level));
      SetPcKeepsInv(s, s', id, Done);
    case Done =>
  }

  lemma {:induction false} RunKeepsInv(moves: seq<Move>)
    ensures Inv(Run(moves))
  {
    if moves == [] {
    } else {
      var s, m := Run(moves[..|moves| - 1]), moves[|moves| - 1];
      RunKeepsInv(moves[..|moves| - 1]);
      if m.Go? && m.id in s.calls {
        AdvanceKeepsInv(s, m.id);
      } else if m.Begin? {
        var s' := Apply(s, m);
        assert forall u :: View(s', u) == View(s, u);
        forall k | k in s'.calls ensures CallOk(s', s'.calls[k]) {
          if k in s.calls {
            CallSurvives(s, s', s.calls[k]);
          }
        }
      }
    }
  }

  /** Under every interleaving, including callers racing to create the same record, each total
      is the exact sum of its successful deltas, inside int64, a stored experience level lies
      between 1 and the level of the highest total reached so far, every announced add is one
      that happened, and every total is the sum of the deltas up to it in the order of the locks. */
  lemma EveryInterleaving(moves: seq<Move>, u: UserID, m: Metric)
    ensures var s := Run(moves);
            && Get(View(s, u).points, m) == SumOf(s.history, u, m)
            && MIN_INT64 <= SumOf(s.history, u, m) <= MAX_INT64
            && (METRIC_XP in View(s, u).levels ==>
                  && Peak(s.history, u).Some?
                  && 1 <= View(s, u).levels[METRIC_XP] <= DefaultLevel(Peak(s.history, u).value))
            && LogOk(s) && TotalsArePrefixSums(s.history)
  {
    RunKeepsInv(moves);
  }

  // ----- Every add is announced once -----

  predicate IsPending(c: CallState, a: Added) {
    c.pc.Announce? && a == Added(c.user, c.metric, c.delta, c.pc.total)
  }

  /** The calls that have made this add and not announced it yet. */
  function Pending(calls: map<CallID, CallState>, a: Added): set<CallID> {
    set id | id in calls && IsPending(calls[id], a)
  }

  predicate AnnouncedOnce(s: State, a: Added) {
    Count(s.history, a) == Count(AddsIn(s.log), a) + |Pending(s.calls, a)|
  }

  lemma PendingAfter(calls: map<CallID, CallState>, id: CallID, c: CallState, a: Added)
    ensures Pending(calls[id := c], a) ==
            if IsPending(c, a) then Pending(calls, a) + {id} else Pending(calls, a) - {id}
  {
  }

  lemma PendingHas(calls: map<CallID, CallState>, id: CallID, a: Added)
    requires id in calls
    ensures id in Pending(calls, a) <==> IsPending(calls[id], a)
  {
  }

  /** What a step does to history and log, by what its call was and is about to do. */
  lemma AdvanceEffect(s: State, id: CallID) returns (c': CallState)
    requires id in s.calls
    ensures var s', c := Advance(s, id), s.calls[id];
            && s'.calls == s.calls[id := c'] && c' == c.(pc := c'.pc)
            && (c.pc.Announce? ==>
                  && !c'.pc.Announce? && s'.history == s.history
                  && s'.log == s.log + [PointsAdded(c.user, c.metric, c.delta, c.pc.total)])
            && (!c.pc.Announce? && c'.pc.Announce? ==>
                  && s'.history == s.history + [Added(c.user, c.metric, c.delta, c'.pc.total)]
                  && s'.log == s.log)
            && (!c.pc.Announce? && !c'.pc.Announce? ==>
                  && s'.history == s.history
                  && (s'.log == s.log || exists e: Event :: !e.PointsAdded? && s'.log == s.log + [e]))
  {
    hide EvaluateRule;
    c' := Advance(s, id).calls[id];
  }

  lemma AdvanceAnnounces(s: State, id: CallID, a: Added)
    requires id in s.calls && AnnouncedOnce(s, a)
    ensures AnnouncedOnce(Advance(s, id), a)
  {
    hide Count, Pending, Advance, AddsIn;
    var c := s.calls[id];
    var c' := AdvanceEffect(s, id);
    PendingAfter(s.calls, id, c', a);
    PendingHas(s.calls, id, a);
    if c.pc.Announce? {
      AddsInAppend(s.log, PointsAdded(c.user, c.metric, c.delta, c.pc.total));
      CountAppend(AddsIn(s.log), Added(c.user, c.metric, c.delta, c.pc.total), a);
    } else if c'.pc.Announce? {
      CountAppend(s.history, Added(c.user, c.metric, c.delta, c'.pc.total), a);
    } else if Advance(s, id).log != s.log {
      var e: Event :| !e.PointsAdded? && Advance(s, id).log == s.log + [e];
      AddsInAppend(s.log, e);
    }
  }

  /** In every interleaving each successful add is announced exactly once, or its call is still
      about to do it. */
  lemma {:induction false} EveryAddAnnouncedOnce(moves: seq<Move>, a: Added)
    ensures AnnouncedOnce(Run(moves), a)
  {
    if moves == [] {
    } else {
      var s, m := Run(moves[..|moves| - 1]), moves[|moves| - 1];
      EveryAddAnnouncedOnce(moves[..|moves| - 1], a);
      if m.Go? && m.id in s.calls {
        AdvanceAnnounces(s, m.id, a);
      } else if m.Begin? && m.id !in s.calls && m.delta != 0 {
        PendingAfter(s.calls, m.id, CallState(m.user, m.metric, m.delta, Load(ForAdd)), a);
        assert m.id !in Pending(s.calls, a);
      }
    }
  }

  // ----- Racing for a record -----

  /** A caller that finds the record made in the meantime takes it and drops its own. */
  lemma LoserTakesWinnersRecord(s: State, id: CallID)
    requires id in s.calls && s.calls[id].pc.LoadOrStore? && s.calls[id].user in s.index
    ensures var t, c := Advance(s, id), s.calls[id];
            && t.calls[id].pc == Access(s.index[c.user], c.pc.purpose)
            && t.index == s.index && t.records == s.records
  {
  }

  /** In every interleaving all calls that work on a user's record hold the same one, the one the
      index has. */
  lemma OneRecordPerUser(moves: seq<Move>, a: CallID, b: CallID)
    requires var s := Run(moves);
             && a in s.calls && b in s.calls && s.calls[a].user == s.calls[b].user
             && s.calls[a].pc.Access? && s.calls[b].pc.Access?
    ensures var s := Run(moves);
            && s.calls[a].pc.rec == s.calls[b].pc.rec
            && s.calls[a].user in s.index && s.index[s.calls[a].user] == s.calls[a].pc.rec
  {
    RunKeepsInv(moves);
    assert CallOk(Run(moves), Run(moves).calls[a]) && CallOk(Run(moves), Run(moves).calls[b]);
  }
}
