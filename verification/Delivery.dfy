/** Nothing on the event bus is stuck: what has been taken can be finished, and what is queued can
    be dispatched, with the subscribers there are. */
module Delivery {
  import opened EventBus

  lemma {:induction false} RunFromAppend(s: State, a: seq<Move>, b: seq<Move>)
    ensures RunFrom(s, a + b) == RunFrom(RunFrom(s, a), b)
  {
    hide Apply;
    if b == [] {
      assert a + b == a;
    } else {
      var n := |b| - 1;
      RunFromAppend(s, a, b[..n]);
      assert (a + b)[..|a| + n] == a + b[..n];
    }
  }

  lemma RunFromCons(s: State, m: Move, rest: seq<Move>)
    ensures RunFrom(s, [m] + rest) == RunFrom(Apply(s, m), rest)
  {
    hide Apply;
    RunFromAppend(s, [m], rest);
    assert [m][..0] == [];
    assert RunFrom(s, [m]) == Apply(RunFrom(s, [m][..0]), m);
  }

  lemma VisitsCons(id: SubID, rest: seq<SubID>, subs: Subs)
    requires id in subs && Visits(rest, subs - {id})
    ensures Visits([id] + rest, subs)
  {
    var order := [id] + rest;
    forall i, j | 0 <= i < j < |order| ensures order[i] != order[j] {
      assert order[j] == rest[j - 1];
      assert i > 0 ==> order[i] == rest[i - 1];
    }
    forall x | x in subs ensures x in order {
      assert x != id ==> x in subs - {id};
    }
  }

  /** There is always some order to visit the subscribers in. */
  lemma {:induction false} SomeOrder(subs: Subs) returns (order: seq<SubID>)
    ensures Visits(order, subs)
  {
    if subs == map[] {
      order := [];
    } else {
      hide Visits;
      var id :| id in subs;
      var rest := SomeOrder(subs - {id});
      VisitsCons(id, rest, subs);
      order := [id] + rest;
    }
  }

  function Freed(s: State): Slot {
    if s.mode == Async then Idle else Stopped
  }

  /** What a dispatch by slot `i` leaves behind: the slot is free again, `d` is on record, and
      nothing else has changed but the clock. */
  ghost predicate Dispatched(s: State, i: nat, d: Dispatch, t: State)
    requires i < |s.slots|
  {
    && CalledExactlyOnce(d)
    && t == s.(slots := s.slots[i := Freed(s)], dispatched := s.dispatched + [d], clock := t.clock)
  }

  lemma CallNextEffect(s: State, i: nat)
    requires i < |s.slots| && s.slots[i].Calling? && SlotOk(s.slots[i])
    requires |s.slots[i].dispatch.calls| < |s.slots[i].order|
    ensures var c, t := s.slots[i], Apply(s, CallNext(i));
            && t == s.(slots := s.slots[i := t.slots[i]], clock := t.clock)
            && t.slots[i].Calling? && SlotOk(t.slots[i])
            && t.slots[i] == c.(dispatch := c.dispatch.(calls := t.slots[i].dispatch.calls))
            && |t.slots[i].dispatch.calls| == |c.dispatch.calls| + 1
  {
  }

  /** A dispatch under way can be carried through. */
  lemma {:induction false} FinishCalls(s: State, i: nat) returns (moves: seq<Move>, d: Dispatch)
    requires i < |s.slots| && s.slots[i].Calling? && SlotOk(s.slots[i])
    ensures Dispatched(s, i, d, RunFrom(s, moves))
    ensures d == s.slots[i].dispatch.(calls := d.calls)
    decreases |s.slots[i].order| - |s.slots[i].dispatch.calls|
  {
    var c := s.slots[i];
    if |c.dispatch.calls| < |c.order| {
      hide Apply, SlotOk, CalledExactlyOnce;
      CallNextEffect(s, i);
      var t := Apply(s, CallNext(i));
      moves, d := FinishCalls(t, i);
      RunFromCons(s, CallNext(i), moves);
      moves := [CallNext(i)] + moves;
      assert t.slots[i := Freed(s)] == s.slots[i := Freed(s)];
    } else {
      moves, d := [Finish(i)], c.dispatch;
      AllCalled(d, c.order);
      RunFromCons(s, Finish(i), []);
      assert [Finish(i)] + [] == moves;
    }
  }

  lemma SnapshotEffect(s: State, i: nat, order: seq<SubID>)
    requires i < |s.slots| && s.slots[i].Taken? && Visits(order, SubsOf(s, s.slots[i].ev.kind))
    ensures var ev := s.slots[i].ev;
            var t := Apply(s, Snapshot(i, order));
            && t == s.(slots := s.slots[i := t.slots[i]], clock := t.clock)
            && t.slots[i] == Calling(ev, Dispatch(ev, s.clock, SubsOf(s, ev.kind), []), order)
            && SlotOk(t.slots[i])
  {
  }

  /** An event in somebody's hands can be brought to all the subscribers of its type. */
  lemma DeliverTaken(s: State, i: nat) returns (moves: seq<Move>, d: Dispatch)
    requires i < |s.slots| && s.slots[i].Taken?
    ensures Dispatched(s, i, d, RunFrom(s, moves))
    ensures d.ev == s.slots[i].ev && d.snapshot == SubsOf(s, d.ev.kind)
  {
    hide Apply, SlotOk, CalledExactlyOnce, SubsOf, Visits;
    var order := SomeOrder(SubsOf(s, s.slots[i].ev.kind));
    SnapshotEffect(s, i, order);
    var t := Apply(s, Snapshot(i, order));
    moves, d := FinishCalls(t, i);
    RunFromCons(s, Snapshot(i, order), moves);
    moves := [Snapshot(i, order)] + moves;
    assert t.slots[i := Freed(s)] == s.slots[i := Freed(s)];
  }

  lemma TakeEffect(s: State, i: nat)
    requires s.mode == Async && i < |s.slots| && i < 4 && s.slots[i].Idle? && s.queue != []
    ensures var t := Apply(s, Take(i));
            t == s.(queue := s.queue[1..], slots := s.slots[i := Taken(s.queue[0])],
                    taken := s.taken + [s.queue[0]], clock := t.clock)
  {
  }

  /** The dispatches `ds` bring the events `es` in order, each to the subscribers in `s`. */
  ghost predicate Bring(s: State, ds: seq<Dispatch>, es: seq<Event>) {
    && Events(ds) == es
    && forall k :: 0 <= k < |ds| ==> ds[k].snapshot == SubsOf(s, ds[k].ev.kind) && CalledExactlyOnce(ds[k])
  }

  lemma SameSubs(s: State, t: State, kind: Kind)
    requires s.subs == t.subs
    ensures SubsOf(s, kind) == SubsOf(t, kind)
  {
  }

  lemma BringCons(s: State, s': State, d: Dispatch, ds: seq<Dispatch>, es: seq<Event>)
    requires es != [] && s'.subs == s.subs && Bring(s', ds, es[1..])
    requires d.ev == es[0] && d.snapshot == SubsOf(s, d.ev.kind) && CalledExactlyOnce(d)
    ensures Bring(s, [d] + ds, es)
  {
    hide CalledExactlyOnce;
    assert Events([d] + ds) == [d.ev] + Events(ds);
    assert es == [es[0]] + es[1..];
  }

  /** An idle worker can dispatch the event at the front of the queue. */
  lemma DeliverFirst(s: State, i: nat) returns (moves: seq<Move>, d: Dispatch)
    requires s.mode == Async && i < |s.slots| && i < 4 && s.slots[i].Idle? && s.queue != []
    ensures d.ev == s.queue[0] && d.snapshot == SubsOf(s, d.ev.kind) && CalledExactlyOnce(d)
    ensures var t := RunFrom(s, moves);
            t == s.(queue := s.queue[1..], dispatched := s.dispatched + [d],
                    taken := s.taken + [s.queue[0]], clock := t.clock)
  {
    hide Apply, CalledExactlyOnce, SubsOf, RunFrom;
    TakeEffect(s, i);
    var t := Apply(s, Take(i));
    moves, d := DeliverTaken(t, i);
    RunFromCons(s, Take(i), moves);
    moves := [Take(i)] + moves;
    SameSubs(t, s, d.ev.kind);
    assert t.slots[i := Freed(s)] == s.slots;
  }

  lemma Regroup<T>(a: seq<T>, x: T, b: seq<T>)
    ensures a + [x] + b == a + ([x] + b)
  {
  }

  /** One idle worker can dispatch the whole queue, in the order of publishing. */
  lemma {:induction false} DrainQueue(s: State, i: nat) returns (moves: seq<Move>, ds: seq<Dispatch>)
    requires s.mode == Async && i < |s.slots| && i < 4 && s.slots[i].Idle?
    ensures Bring(s, ds, s.queue)
    ensures var t := RunFrom(s, moves);
            t == s.(queue := [], dispatched := s.dispatched + ds, taken := s.taken + s.queue, clock := t.clock)
    decreases |s.queue|
  {
    if s.queue == [] {
      moves, ds := [], [];
      assert s.dispatched + ds == s.dispatched && s.taken + s.queue == s.taken;
    } else {
      hide Apply, CalledExactlyOnce, SubsOf, Bring, RunFrom;
      var first, d := DeliverFirst(s, i);
      var t := RunFrom(s, first);
      var rest, more := DrainQueue(t, i);
      RunFromAppend(s, first, rest);
      moves, ds := first + rest, [d] + more;
      BringCons(s, t, d, more, s.queue);
      Regroup(s.dispatched, d, more);
      Regroup(s.taken, s.queue[0], s.queue[1..]);
      assert [s.queue[0]] + s.queue[1..] == s.queue;
    }
  }

  /** The event a slot holds, if any. */
  function InHand(slot: Slot): seq<Event> {
    if slot.Taken? || slot.Calling? then [slot.ev] else []
  }

  /** A worker that has not stopped can get free. */
  lemma FreeWorker(s: State, i: nat) returns (moves: seq<Move>, ds: seq<Dispatch>)
    requires s.mode == Async && i < |s.slots| && !s.slots[i].Stopped? && SlotOk(s.slots[i])
    ensures Events(ds) == InHand(s.slots[i]) && forall k :: 0 <= k < |ds| ==> CalledExactlyOnce(ds[k])
    ensures var t := RunFrom(s, moves);
            t == s.(slots := s.slots[i := Idle], dispatched := s.dispatched + ds, clock := t.clock)
  {
    if s.slots[i].Idle? {
      moves, ds := [], [];
      assert s.dispatched + ds == s.dispatched && s.slots[i := Idle] == s.slots;
    } else {
      hide RunFrom, CalledExactlyOnce;
      var d;
      if s.slots[i].Taken? {
        moves, d := DeliverTaken(s, i);
      } else {
        moves, d := FinishCalls(s, i);
      }
      ds := [d];
    }
  }

  /** No event is ever stuck: whatever has happened on an asynchronous bus, any worker that has not
      stopped can finish what it holds and then dispatch all that is queued, in order and to the
      present subscribers; every one of these dispatches calls its subscribers exactly once each. */
  lemma BacklogCanBeDispatched(moves: seq<Move>, i: nat) returns (more: seq<Move>, ds: seq<Dispatch>)
    requires var s := Run(Async, moves); i < |s.slots| && !s.slots[i].Stopped?
    ensures var s, t := Run(Async, moves), Run(Async, moves + more);
            && t.queue == [] && t.dispatched == s.dispatched + ds
            && Events(ds) == InHand(s.slots[i]) + s.queue
            && (forall k :: 0 <= k < |ds| ==> CalledExactlyOnce(ds[k]))
            && forall k :: |InHand(s.slots[i])| <= k < |ds| ==> ds[k].snapshot == SubsOf(s, ds[k].ev.kind)
  {
    hide RunFrom, CalledExactlyOnce, Conserved, QueueOk;
    var s := Run(Async, moves);
    EveryRun(Async, moves);
    var first, ds1 := FreeWorker(s, i);
    var s1 := RunFrom(s, first);
    var rest, ds2 := DrainQueue(s1, i);
    more, ds := first + rest, ds1 + ds2;
    RunFromAppend(s, first, rest);
    RunFromAppend(NewBus(Async), moves, more);
    assert s.dispatched + ds1 + ds2 == s.dispatched + ds;
    assert Events(ds) == Events(ds1) + Events(ds2);
  }

  /** In synchronous mode a published event can be brought at once to the subscribers its type has
      at that moment. */
  lemma SyncPublishDelivers(moves: seq<Move>, ev: Event) returns (more: seq<Move>, d: Dispatch)
    ensures var s := Run(Sync, moves);
            && Run(Sync, moves + [Publish(ev)] + more).dispatched == s.dispatched + [d]
            && d.ev == ev && d.snapshot == SubsOf(s, ev.kind) && CalledExactlyOnce(d)
  {
    hide Apply, RunFrom, CalledExactlyOnce, Conserved, QueueOk, DispatchesOk, SubsOf;
    var s := Run(Sync, moves);
    EveryRun(Sync, moves);
    PublishEffect(s, ev);
    var t := Apply(s, Publish(ev));
    more, d := DeliverTaken(t, |s.slots|);
    SameSubs(t, s, ev.kind);
    RunFromCons(s, Publish(ev), more);
    RunFromAppend(NewBus(Sync), moves, [Publish(ev)] + more);
    assert moves + [Publish(ev)] + more == moves + ([Publish(ev)] + more);
  }
}
