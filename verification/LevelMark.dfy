/** When concurrent adds leave the stored experience level where a serial run would: whenever one
    user's experience adds do not overlap. Everything else may interleave freely. */
module LevelMark {
  import opened Core
  import opened Adds
  import opened Interleaving
  import opened CallSteps

  // ----- The condition -----

  predicate Unfinished(c: CallState, u: UserID) {
    c.user == u && c.metric == METRIC_XP && !c.pc.Done?
  }

  ghost predicate Busy(s: State, u: UserID) {
    exists id :: id in s.calls && Unfinished(s.calls[id], u)
  }

  /** Every experience add of `u` begins when no earlier one is under way. */
  ghost predicate Serialised(moves: seq<Move>, u: UserID) {
    forall i :: 0 <= i < |moves| && moves[i].Begin? && moves[i].user == u && moves[i].metric == METRIC_XP ==>
      !Busy(Run(moves[..i]), u)
  }

  /** The stored level is the level of the highest total reached. */
  ghost predicate AtMark(s: State, u: UserID) {
    var levels := View(s, u).levels;
    match Peak(s.history, u)
    case None => METRIC_XP !in levels
    case Some(peak) => METRIC_XP in levels && levels[METRIC_XP] == DefaultLevel(peak)
  }

  // ----- The invariant of one user's experience adds -----

  /** The stored level may be behind, but the total is the peak, so the next snapshot sees it. */
  ghost predicate TotalIsPeak(s: State, u: UserID) {
    METRIC_XP in View(s, u).points && Peak(s.history, u) == Some(View(s, u).points[METRIC_XP])
  }

  ghost predicate OnTrack(s: State, u: UserID, p: Purpose) {
    match p
    case ForAdd => AtMark(s, u)
    case ForSnapshot => AtMark(s, u) || TotalIsPeak(s, u)
    case ForSetLevel(l) => Peak(s.history, u).Some? && l == DefaultLevel(Peak(s.history, u).value)
  }

  /** Where the level stands, given how far the user's add has come. */
  ghost predicate Phase(s: State, u: UserID, pc: Pc) {
    match pc
    case Load(p) => OnTrack(s, u, p)
    case LoadOrStore(p) => OnTrack(s, u, p)
    case Access(_, p) => OnTrack(s, u, p)
    case Announce(_) => OnTrack(s, u, ForSnapshot)
    case AnnounceLevel(_) => AtMark(s, u)
    case Done => AtMark(s, u)
  }

  /** At most one experience add of `u` is under way, and the level stands where that add's
      progress says; with none under way it is at the mark. */
  ghost predicate MarkInv(s: State, u: UserID) {
    && (forall a, b :: a in s.calls && b in s.calls ==>
          Unfinished(s.calls[a], u) && Unfinished(s.calls[b], u) ==> a == b)
    && (forall id :: id in s.calls && Unfinished(s.calls[id], u) ==> Phase(s, u, s.calls[id].pc))
    && (!Busy(s, u) ==> AtMark(s, u))
  }

  /** Nothing about the user's experience differs. */
  ghost predicate SameXP(s: State, t: State, u: UserID) {
    var p, q := View(s, u), View(t, u);
    && Peak(t.history, u) == Peak(s.history, u)
    && (METRIC_XP in p.levels <==> METRIC_XP in q.levels)
    && (METRIC_XP in p.levels ==> p.levels[METRIC_XP] == q.levels[METRIC_XP])
    && (METRIC_XP in p.points <==> METRIC_XP in q.points)
    && (METRIC_XP in p.points ==> p.points[METRIC_XP] == q.points[METRIC_XP])
  }

  lemma PhaseKept(s: State, t: State, u: UserID, pc: Pc)
    requires SameXP(s, t, u)
    ensures Phase(t, u, pc) == Phase(s, u, pc) && AtMark(t, u) == AtMark(s, u)
  {
  }

  lemma DoneStays(s: State, id: CallID)
    requires id in s.calls && s.calls[id].pc.Done?
    ensures Advance(s, id) == s
  {
  }

  /** A step of a call that is not one of the user's experience adds under way. */
  lemma OtherStep(s: State, id: CallID, u: UserID)
    requires Inv(s) && id in s.calls && !Unfinished(s.calls[id], u)
    ensures SameXP(s, Advance(s, id), u)
  {
    hide Advance, Peak, SumOf, TotalsArePrefixSums, DefaultLevel;
    InvMeans(s, id);
    var c := s.calls[id];
    match c.pc
    case Load(_) => var t := LookedUp(s, id);
    case LoadOrStore(_) => var t := LookedUp(s, id);
    case Announce(_) => var t := Published(s, id);
    case AnnounceLevel(_) => var t := Published(s, id);
    case Done => DoneStays(s, id);
    case Access(_, p) =>
      match p {
        case ForAdd =>
          var t := AddUnderLock(s, id);
          if t.history != s.history {
            HistoryAppend(s.history, t.history[|s.history|]);
          }
        case ForSnapshot => var t := SnapshotUnderLock(s, id, 0);
        case ForSetLevel(l) => var t := LevelUnderLock(s, id, l);
      }
  }

  /** The add under the lock: either it reaches a new peak, or the mark stands. */
  lemma AddKeepsTrack(s: State, id: CallID, u: UserID)
    requires Inv(s) && id in s.calls && Unfinished(s.calls[id], u)
    requires s.calls[id].pc.Access? && s.calls[id].pc.purpose == ForAdd && AtMark(s, u)
    ensures var t := Advance(s, id); id in t.calls && Phase(t, u, t.calls[id].pc)
  {
    hide Advance, Peak, SumOf, TotalsArePrefixSums, DefaultLevel;
    InvMeans(s, id);
    var t := AddUnderLock(s, id);
    if t.calls[id].pc.Announce? {
      HistoryAppend(s.history, t.history[|s.history|]);
    } else {
      PhaseKept(s, t, u, Done);
    }
  }

  /** The snapshot: a level-up is due exactly when the level is behind. */
  lemma SnapshotKeepsTrack(s: State, id: CallID, u: UserID)
    requires Inv(s) && id in s.calls && Unfinished(s.calls[id], u)
    requires s.calls[id].pc.Access? && s.calls[id].pc.purpose == ForSnapshot && OnTrack(s, u, ForSnapshot)
    ensures var t := Advance(s, id); id in t.calls && Phase(t, u, t.calls[id].pc)
    ensures Advance(s, id).calls[id].pc.Done? <==> AtMark(s, u)
  {
    hide Advance, Peak, SumOf, TotalsArePrefixSums, DefaultLevel;
    InvMeans(s, id);
    var t := SnapshotUnderLock(s, id, 0);
    var st := View(s, u);
    assert CallOk(s, s.calls[id]) && PeaksOk(s) && LevelsOk(s);
    var total, peak := st.points[METRIC_XP], Peak(s.history, u).value;
    LevelMonotone(total, peak);
    LevelCurve(total);
    LevelCurve(peak);
    PhaseKept(s, t, u, t.calls[id].pc);
  }

  /** A step of the user's own experience add keeps it on track. */
  lemma OwnStep(s: State, id: CallID, u: UserID)
    requires Inv(s) && id in s.calls && Unfinished(s.calls[id], u) && Phase(s, u, s.calls[id].pc)
    ensures var t := Advance(s, id); id in t.calls && Phase(t, u, t.calls[id].pc)
  {
    hide Advance, Peak, SumOf, TotalsArePrefixSums, DefaultLevel;
    InvMeans(s, id);
    var c := s.calls[id];
    match c.pc
    case Load(_) => var t := LookedUp(s, id); PhaseKept(s, t, u, c.pc);
    case LoadOrStore(_) => var t := LookedUp(s, id); PhaseKept(s, t, u, c.pc);
    case Announce(_) => var t := Published(s, id); PhaseKept(s, t, u, c.pc);
    case AnnounceLevel(_) => var t := Published(s, id); PhaseKept(s, t, u, c.pc);
    case Access(_, p) =>
      match p {
        case ForAdd => AddKeepsTrack(s, id, u);
        case ForSnapshot => SnapshotKeepsTrack(s, id, u);
        case ForSetLevel(l) => var t := LevelUnderLock(s, id, l);
      }
  }

  lemma DonePhase(t: State, u: UserID)
    ensures Phase(t, u, Done) == AtMark(t, u)
  {
  }

  /** A call that is not one of the user's experience adds, or is finished, stays that. */
  lemma StaysOther(s: State, id: CallID, u: UserID)
    requires id in s.calls && !Unfinished(s.calls[id], u)
    ensures id in Advance(s, id).calls && !Unfinished(Advance(s, id).calls[id], u)
  {
    if s.calls[id].pc.Done? {
      DoneStays(s, id);
    } else {
      var _ := AdvanceEffect(s, id);
    }
  }

  lemma AdvanceKeepsMark(s: State, id: CallID, u: UserID)
    requires Inv(s) && id in s.calls && MarkInv(s, u)
    ensures MarkInv(Advance(s, id), u)
  {
    hide Advance, Phase, AtMark, Inv, SameXP;
    var c := s.calls[id];
    var c' := AdvanceEffect(s, id);
    var t := Advance(s, id);
    if Unfinished(c, u) {
      OwnStep(s, id, u);
      if !Busy(t, u) {
        assert c'.pc.Done?;
        assert AtMark(t, u) by {
          DonePhase(t, u);
        }
      }
      forall k | k in t.calls && Unfinished(t.calls[k], u) ensures k == id {
      }
    } else {
      OtherStep(s, id, u);
      forall k | k in t.calls && Unfinished(t.calls[k], u) ensures k in s.calls && s.calls[k] == t.calls[k] {
        if k == id {
          StaysOther(s, id, u);
        }
      }
      if Busy(s, u) {
        var k :| k in s.calls && Unfinished(s.calls[k], u);
        assert k in t.calls && t.calls[k] == s.calls[k];
        assert Busy(t, u);
      }
      PhaseKept(s, t, u, Done);
      forall k | k in t.calls && Unfinished(t.calls[k], u) ensures Phase(t, u, t.calls[k].pc) {
        PhaseKept(s, t, u, t.calls[k].pc);
      }
    }
  }

  lemma BeginTouchesNoXP(s: State, m: Move, u: UserID)
    requires m.Begin?
    ensures SameXP(s, Apply(s, m), u)
    ensures Phase(s, u, Load(ForAdd)) == AtMark(s, u)
  {
  }

  lemma BeginKeepsMark(s: State, m: Move, u: UserID)
    requires MarkInv(s, u) && m.Begin?
    requires m.user == u && m.metric == METRIC_XP ==> !Busy(s, u)
    ensures MarkInv(Apply(s, m), u)
  {
    hide SameXP, Phase, AtMark;
    var t := Apply(s, m);
    BeginTouchesNoXP(s, m, u);
    forall pc ensures Phase(t, u, pc) == Phase(s, u, pc) {
      PhaseKept(s, t, u, pc);
    }
    PhaseKept(s, t, u, Done);
    forall k | k in s.calls ensures k in t.calls && t.calls[k] == s.calls[k] {
    }
  }

  lemma StartsAtMark(u: UserID)
    ensures MarkInv(START, u)
  {
  }

  lemma MoveKeepsMark(s: State, m: Move, u: UserID)
    requires Inv(s) && MarkInv(s, u)
    requires m.Begin? && m.user == u && m.metric == METRIC_XP ==> !Busy(s, u)
    ensures MarkInv(Apply(s, m), u)
  {
    hide MarkInv, Inv, Advance;
    if m.Begin? {
      BeginKeepsMark(s, m, u);
    } else if m.id in s.calls {
      AdvanceKeepsMark(s, m.id, u);
    }
  }

  lemma {:induction false} RunKeepsMark(moves: seq<Move>, u: UserID)
    requires Serialised(moves, u)
    ensures MarkInv(Run(moves), u)
  {
    hide MarkInv, Apply, Inv;
    if moves == [] {
      assert MarkInv(START, u) by {
        StartsAtMark(u);
      }
    } else {
      var n := |moves| - 1;
      var s, m := Run(moves[..n]), moves[n];
      forall i | 0 <= i < n ensures moves[..n][..i] == moves[..i] {
      }
      RunKeepsMark(moves[..n], u);
      RunKeepsInv(moves[..n]);
      MoveKeepsMark(s, m, u);
    }
  }

  /** If the experience adds of a user do not overlap, then in every interleaving with other
      users' calls and the user's other metrics, whenever none of them is under way the stored
      level is that of the highest total reached, and absent when there is none. */
  lemma SerialisedAddsKeepMark(moves: seq<Move>, u: UserID)
    requires Serialised(moves, u) && !Busy(Run(moves), u)
    ensures AtMark(Run(moves), u)
  {
    RunKeepsMark(moves, u);
  }

  // ----- Overlapping adds can leave the level behind -----

  lemma Extend(moves: seq<Move>, s: State, m: Move) returns (moves': seq<Move>, s': State)
    requires Run(moves) == s
    ensures moves' == moves + [m] && s' == Apply(s, m) && Run(moves') == s'
  {
    moves', s' := moves + [m], Apply(s, m);
    assert moves'[..|moves|] == moves;
  }

  /** One call, alone, up to the point where it holds the record it has created. */
  lemma FirstCallCreates(u: UserID, delta: int64) returns (moves: seq<Move>, s: State)
    requires delta != 0
    ensures Run(moves) == s
    ensures s == State(map[u := 0], map[0 := EmptyState(u)], 1,
                       map[0 := CallState(u, METRIC_XP, delta, Access(0, ForAdd))], [], [])
  {
    moves, s := [], START;
    moves, s := Extend(moves, s, Begin(0, u, METRIC_XP, delta));
    moves, s := Extend(moves, s, Go(0));
    assert s.calls == map[0 := CallState(u, METRIC_XP, delta, LoadOrStore(ForAdd))];
    moves, s := Extend(moves, s, Go(0));
  }

  /** The same call up to the point where it has decided on level 2. */
  lemma FirstCallDecides(u: UserID) returns (moves: seq<Move>, s: State)
    ensures Run(moves) == s
    ensures s.index == map[u := 0] && s.nextRec == 1
    ensures s.records == map[0 := UserState(u, map[METRIC_XP := 100], {}, map[])]
    ensures s.calls == map[0 := CallState(u, METRIC_XP, 100, Load(ForSetLevel(2)))]
    ensures s.history == [Added(u, METRIC_XP, 100, 100)]
  {
    hide Run, DefaultLevel;
    LevelOf(100, 2);
    moves, s := FirstCallCreates(u, 100);
    moves, s := Extend(moves, s, Go(0));
    assert s.calls[0].pc == Announce(100);
    assert s.records[0].points == map[METRIC_XP := 100];
    moves, s := Extend(moves, s, Go(0));
    moves, s := Extend(moves, s, Go(0));
    assert s.calls[0].pc == Access(0, ForSnapshot);
    moves, s := Extend(moves, s, Go(0));
  }

  /** A second call that starts then, adds, and stores level 3. */
  lemma SecondCallOvertakes(u: UserID) returns (moves: seq<Move>, s: State)
    ensures Run(moves) == s
    ensures s.index == map[u := 0] && s.records.Keys == {0}
    ensures s.records[0] == UserState(u, map[METRIC_XP := 400], {}, map[METRIC_XP := 3])
    ensures s.calls == map[0 := CallState(u, METRIC_XP, 100, Load(ForSetLevel(2))),
                           1 := CallState(u, METRIC_XP, 300, AnnounceLevel(3))]
    ensures s.history == [Added(u, METRIC_XP, 100, 100), Added(u, METRIC_XP, 300, 400)]
  {
    hide Run, DefaultLevel;
    LevelOf(400, 3);
    moves, s := FirstCallDecides(u);
    moves, s := Extend(moves, s, Begin(1, u, METRIC_XP, 300));
    moves, s := Extend(moves, s, Go(1));
    assert s.calls[1].pc == Access(0, ForAdd);
    moves, s := Extend(moves, s, Go(1));
    assert s.calls[1].pc == Announce(400);
    assert s.records[0].points == map[METRIC_XP := 400];
    moves, s := Extend(moves, s, Go(1));
    moves, s := Extend(moves, s, Go(1));
    assert s.calls[1].pc == Access(0, ForSnapshot);
    moves, s := Extend(moves, s, Go(1));
    assert s.calls[1].pc == Load(ForSetLevel(3));
    moves, s := Extend(moves, s, Go(1));
    moves, s := Extend(moves, s, Go(1));
    assert s.records[0].levels == map[METRIC_XP := 3];
  }

  lemma PeakOfTwo(a: Added, b: Added)
    requires a.user == b.user && a.metric == b.metric == METRIC_XP
    ensures Peak([a, b], a.user) == Some(if a.total >= b.total then a.total else b.total)
  {
    assert [a, b][..1] == [a] && [a][..0] == [];
    assert Peak([a], a.user) == Some(a.total);
  }

  /** Two finished adds that overlapped: both snapshots were taken before either level was
      written, the earlier one was written last, and the level stays behind. For every user. */
  lemma LevelCanFallBehind(u: UserID) returns (moves: seq<Move>)
    ensures !Busy(Run(moves), u) && !AtMark(Run(moves), u)
    ensures var s := Run(moves);
            && METRIC_XP in View(s, u).levels && View(s, u).levels[METRIC_XP] == 2
            && Peak(s.history, u) == Some(400) && DefaultLevel(400) == 3
  {
    hide Run, DefaultLevel;
    LevelOf(400, 3);
    var s;
    moves, s := SecondCallOvertakes(u);
    moves, s := Extend(moves, s, Go(0));
    assert s.calls[0].pc == Access(0, ForSetLevel(2));
    moves, s := Extend(moves, s, Go(0));
    assert s.records[0].levels == map[METRIC_XP := 2];
    moves, s := Extend(moves, s, Go(0));
    moves, s := Extend(moves, s, Go(1));
    assert s.calls.Keys == {0, 1} && s.calls[0].pc == Done && s.calls[1].pc == Done;
    PeakOfTwo(Added(u, METRIC_XP, 100, 100), Added(u, METRIC_XP, 300, 400));
  }

  /** An add of 400 that is announced but has not taken its snapshot yet. */
  lemma FirstCallAnnounces(u: UserID) returns (moves: seq<Move>, s: State)
    ensures Run(moves) == s
    ensures s.index == map[u := 0] && s.nextRec == 1
    ensures s.records == map[0 := UserState(u, map[METRIC_XP := 400], {}, map[])]
    ensures s.calls == map[0 := CallState(u, METRIC_XP, 400, Load(ForSnapshot))]
    ensures s.history == [Added(u, METRIC_XP, 400, 400)]
  {
    hide Run, DefaultLevel;
    moves, s := FirstCallCreates(u, 400);
    moves, s := Extend(moves, s, Go(0));
    assert s.calls[0].pc == Announce(400);
    assert s.records[0].points == map[METRIC_XP := 400];
    moves, s := Extend(moves, s, Go(0));
  }

  /** A second call spends it all, and runs to its end. */
  lemma SecondCallSpends(u: UserID) returns (moves: seq<Move>, s: State)
    ensures Run(moves) == s
    ensures s.index == map[u := 0] && s.records.Keys == {0}
    ensures s.records[0] == UserState(u, map[METRIC_XP := 0], {}, map[METRIC_XP := 1])
    ensures s.calls == map[0 := CallState(u, METRIC_XP, 400, Load(ForSnapshot)),
                           1 := CallState(u, METRIC_XP, -400, Done)]
    ensures s.history == [Added(u, METRIC_XP, 400, 400), Added(u, METRIC_XP, -400, 0)]
  {
    LevelCurve(0);
    hide Run, DefaultLevel;
    moves, s := FirstCallAnnounces(u);
    moves, s := Extend(moves, s, Begin(1, u, METRIC_XP, -400));
    moves, s := Extend(moves, s, Go(1));
    assert s.calls[1].pc == Access(0, ForAdd);
    moves, s := Extend(moves, s, Go(1));
    assert s.calls[1].pc == Announce(0);
    assert s.records[0].points == map[METRIC_XP := 0];
    moves, s := Extend(moves, s, Go(1));
    moves, s := Extend(moves, s, Go(1));
    assert s.calls[1].pc == Access(0, ForSnapshot);
    moves, s := Extend(moves, s, Go(1));
    assert s.calls[1].pc == Load(ForSetLevel(1));
    moves, s := Extend(moves, s, Go(1));
    moves, s := Extend(moves, s, Go(1));
    assert s.records[0].levels == map[METRIC_XP := 1];
    moves, s := Extend(moves, s, Go(1));
  }

  /** The other way to fall behind: the points are spent before the snapshot that would have seen
      them, so the level of the peak is never written at all. For every user. */
  lemma PeakCanBeMissed(u: UserID) returns (moves: seq<Move>)
    ensures !Busy(Run(moves), u) && !AtMark(Run(moves), u)
    ensures var s := Run(moves);
            && METRIC_XP in View(s, u).levels && View(s, u).levels[METRIC_XP] == 1
            && Peak(s.history, u) == Some(400) && DefaultLevel(400) == 3
  {
    LevelCurve(0);
    hide Run, DefaultLevel;
    LevelOf(400, 3);
    var s;
    moves, s := SecondCallSpends(u);
    moves, s := Extend(moves, s, Go(0));
    assert s.calls[0].pc == Access(0, ForSnapshot);
    moves, s := Extend(moves, s, Go(0));
    assert s.calls.Keys == {0, 1} && s.calls[0].pc == Done && s.calls[1].pc == Done;
    PeakOfTwo(Added(u, METRIC_XP, 400, 400), Added(u, METRIC_XP, -400, 0));
  }
}
