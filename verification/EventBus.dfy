/** The event bus as a step relation: publishers, four queue workers (or, in synchronous mode,
    the publishers themselves), subscribers and `Close`, interleaved in any way. */
module EventBus {
  import opened Numbers

  type Kind = string

  type SubID = nat

  type Handler = nat

  datatype Event = Event(kind: Kind, payload: string)

  datatype Mode = Sync | Async

  const QUEUE_CAPACITY: nat := 2048

  const WORKERS: nat := 4

  datatype Invocation = Invocation(sub: SubID, handler: Handler)

  type Subs = map<SubID, Handler>

  /** One dispatch: the subscribers it copied, when, and whom it has called. */
  datatype Dispatch = Dispatch(ev: Event, at: nat, snapshot: Subs, calls: seq<Invocation>)

  /** A thread that can dispatch: a queue worker, or a publisher in synchronous mode. */
  datatype Slot =
    | Idle
    | Taken(ev: Event)                 // holds an event, has not looked at the subscribers
    | Calling(ev: Event, dispatch: Dispatch, order: seq<SubID>)
    | Stopped

  datatype State = State(
    mode: Mode, subs: map<Kind, Subs>, nextID: SubID, queue: seq<Event>, closed: bool,
    slots: seq<Slot>,
    // history
    clock: nat, published: seq<Event>, dropped: seq<Event>, accepted: seq<Event>,
    taken: seq<Event>, dispatched: seq<Dispatch>)

  function NewBus(mode: Mode): State {
    State(mode, map[], 0, [], false, if mode == Async then seq(WORKERS, _ => Idle) else [],
          0, [], [], [], [], [])
  }

  datatype Move =
    | Publish(ev: Event)
    | Take(slot: nat)
    | Snapshot(slot: nat, order: seq<SubID>) // in some order of the map's iteration
    | CallNext(slot: nat)
    | Finish(slot: nat)
    | Stop(slot: nat)
    | Subscribe(kind: Kind, handler: Handler)
    | Unsubscribe(kind: Kind, id: SubID)
    | Close

  function SubsOf(s: State, kind: Kind): Subs {
    if kind in s.subs then s.subs[kind] else map[]
  }

  /** `order` visits each subscription once. */
  predicate Visits(order: seq<SubID>, subs: Subs) {
    && (forall i, j :: 0 <= i < j < |order| ==> order[i] != order[j])
    && (forall i :: 0 <= i < |order| ==> order[i] in subs)
    && (forall id :: id in subs ==> id in order)
  }

  predicate Enabled(s: State, m: Move) {
    match m
    case Take(i) => i < |s.slots| && i < WORKERS && s.mode == Async && s.slots[i].Idle? && s.queue != []
    case Snapshot(i, order) =>
      i < |s.slots| && s.slots[i].Taken? && Visits(order, SubsOf(s, s.slots[i].ev.kind))
    case CallNext(i) =>
      i < |s.slots| && s.slots[i].Calling? &&
      |s.slots[i].dispatch.calls| < |s.slots[i].order| &&
      s.slots[i].order[|s.slots[i].dispatch.calls|] in s.slots[i].dispatch.snapshot
    case Finish(i) =>
      i < |s.slots| && s.slots[i].Calling? && |s.slots[i].dispatch.calls| == |s.slots[i].order|
    case Stop(i) => i < |s.slots| && s.slots[i].Idle? && s.closed
    case _ => true
  }

  function DoPublish(s: State, ev: Event): State {
    var p := s.(published := s.published + [ev]);
    if s.mode == Sync then p.(slots := s.slots + [Taken(ev)])
    else if |s.queue| < QUEUE_CAPACITY
    then p.(queue := s.queue + [ev], accepted := s.accepted + [ev])
    else p.(dropped := s.dropped + [ev])
  }

  function DoTake(s: State, i: nat): State
    requires Enabled(s, Take(i))
  {
    s.(queue := s.queue[1..], taken := s.taken + [s.queue[0]],
       slots := s.slots[i := Taken(s.queue[0])])
  }

  /** What a dispatching slot becomes by its next step. */
  function SlotStep(s: State, m: Move): Slot
    requires (m.Snapshot? || m.CallNext? || m.Finish? || m.Stop?) && Enabled(s, m)
  {
    match m
    case Snapshot(i, order) =>
      var ev := s.slots[i].ev;
      Calling(ev, Dispatch(ev, s.clock, SubsOf(s, ev.kind), []), order)
    case CallNext(i) =>
      var c := s.slots[i];
      var id := c.order[|c.dispatch.calls|];
      var call := Invocation(id, c.dispatch.snapshot[id]);
      c.(dispatch := c.dispatch.(calls := c.dispatch.calls + [call]))
    case Finish(i) => if s.mode == Async then Idle else Stopped
    case Stop(i) => Stopped
  }

  function DoSlot(s: State, m: Move): State
    requires (m.Snapshot? || m.CallNext? || m.Finish? || m.Stop?) && Enabled(s, m)
  {
    var t := s.(slots := s.slots[m.slot := SlotStep(s, m)]);
    if m.Finish? then t.(dispatched := s.dispatched + [s.slots[m.slot].dispatch]) else t
  }

  function DoSubs(s: State, m: Move): State
    requires m.Subscribe? || m.Unsubscribe?
  {
    match m
    case Subscribe(kind, h) =>
      var id := s.nextID + 1;
      s.(nextID := id, subs := s.subs[kind := SubsOf(s, kind)[id := h]])
    case Unsubscribe(kind, id) =>
      if kind in s.subs then s.(subs := s.subs[kind := s.subs[kind] - {id}]) else s
  }

  function Effect(s: State, m: Move): State
    requires Enabled(s, m)
  {
    match m
    case Publish(ev) => DoPublish(s, ev)
    case Take(i) => DoTake(s, i)
    case Subscribe(_, _) => DoSubs(s, m)
    case Unsubscribe(_, _) => DoSubs(s, m)
    case Close => s.(closed := true)
    case _ => DoSlot(s, m)
  }

  /** One move; one that is not possible changes nothing. The clock counts moves. */
  function Apply(s: State, m: Move): State {
    (if Enabled(s, m) then Effect(s, m) else s).(clock := s.clock + 1)
  }

  function RunFrom(s: State, moves: seq<Move>): State {
    if moves == [] then s
    else Apply(RunFrom(s, moves[..|moves| - 1]), moves[|moves| - 1])
  }

  function Run(mode: Mode, moves: seq<Move>): State {
    RunFrom(NewBus(mode), moves)
  }

  // ----- Conservation -----

  function Holds(slot: Slot, e: Event): nat {
    if (slot.Taken? || slot.Calling?) && slot.ev == e then 1 else 0
  }

  /** How many slots hold a copy of `e`. */
  function InFlight(slots: seq<Slot>, e: Event): nat {
    if slots == [] then 0
    else InFlight(slots[..|slots| - 1], e) + Holds(slots[|slots| - 1], e)
  }

  function Events(ds: seq<Dispatch>): seq<Event> {
    seq(|ds|, k requires 0 <= k < |ds| => ds[k].ev)
  }

  /** No copy of an event is lost or made up: published is dropped, queued, in flight or
      dispatched. */
  predicate Balanced(s: State, e: Event) {
    Count(s.published, e) ==
    Count(s.dropped, e) + Count(s.queue, e) + InFlight(s.slots, e) + Count(Events(s.dispatched), e)
  }

  ghost predicate Conserved(s: State) {
    forall e :: Balanced(s, e)
  }

  ghost predicate QueueOk(s: State) {
    && |s.queue| <= 2048
    && s.accepted == s.taken + s.queue
    && (s.mode == Sync ==> s.accepted == [] && s.dropped == [])
  }

  lemma {:induction false} InFlightUpdate(slots: seq<Slot>, i: nat, x: Slot, e: Event)
    requires i < |slots|
    ensures InFlight(slots[i := x], e) + Holds(slots[i], e) == InFlight(slots, e) + Holds(x, e)
  {
    var n := |slots| - 1;
    if i < n {
      InFlightUpdate(slots[..n], i, x, e);
      assert slots[i := x][..n] == slots[..n][i := x];
    } else {
      assert slots[i := x][..n] == slots[..n];
    }
  }

  lemma InFlightAppend(slots: seq<Slot>, x: Slot, e: Event)
    ensures InFlight(slots + [x], e) == InFlight(slots, e) + Holds(x, e)
  {
    assert (slots + [x])[..|slots|] == slots;
  }

  lemma PublishConserves(s: State, ev: Event)
    requires Conserved(s)
    ensures Conserved(DoPublish(s, ev))
  {
    hide InFlight, Count;
    forall e ensures Balanced(DoPublish(s, ev), e) {
      assert Balanced(s, e);
      CountAppend(s.published, ev, e);
      CountAppend(s.dropped, ev, e);
      CountAppend(s.queue, ev, e);
      InFlightAppend(s.slots, Taken(ev), e);
    }
  }

  lemma TakeConserves(s: State, i: nat)
    requires Conserved(s) && Enabled(s, Take(i))
    ensures Conserved(DoTake(s, i))
  {
    hide InFlight, Count;
    assert s.queue == [s.queue[0]] + s.queue[1..];
    forall e ensures Balanced(DoTake(s, i), e) {
      assert Balanced(s, e);
      InFlightUpdate(s.slots, i, Taken(s.queue[0]), e);
      CountAppend(s.queue[1..], s.queue[0], e);
    }
  }

  /** The calls so far follow the visiting order of the copied subscribers. */
  ghost predicate CallsFollow(d: Dispatch, order: seq<SubID>) {
    && Visits(order, d.snapshot) && |d.calls| <= |order|
    && forall k :: 0 <= k < |d.calls| ==>
         order[k] in d.snapshot && d.calls[k] == Invocation(order[k], d.snapshot[order[k]])
  }

  ghost predicate SlotOk(slot: Slot) {
    slot.Calling? ==> slot.dispatch.ev == slot.ev && CallsFollow(slot.dispatch, slot.order)
  }

  /** Every copied subscriber is called, with its own handler, exactly once; nobody else is. */
  ghost predicate CalledExactlyOnce(d: Dispatch) {
    && (forall k :: 0 <= k < |d.calls| ==>
          d.calls[k].sub in d.snapshot && d.snapshot[d.calls[k].sub] == d.calls[k].handler)
    && (forall j, k :: 0 <= j < k < |d.calls| ==> d.calls[j].sub != d.calls[k].sub)
    && (forall id :: id in d.snapshot ==> Invocation(id, d.snapshot[id]) in d.calls)
  }

  ghost predicate DispatchesOk(s: State) {
    && (forall i :: 0 <= i < |s.slots| ==> SlotOk(s.slots[i]))
    && (forall k :: 0 <= k < |s.dispatched| ==> CalledExactlyOnce(s.dispatched[k]))
  }

  lemma SlotConserves(s: State, m: Move)
    requires Conserved(s) && DispatchesOk(s)
    requires (m.Snapshot? || m.CallNext? || m.Finish? || m.Stop?) && Enabled(s, m)
    ensures Conserved(DoSlot(s, m))
  {
    hide InFlight, Count;
    assert SlotOk(s.slots[m.slot]);
    if m.Finish? {
      assert Events(DoSlot(s, m).dispatched) == Events(s.dispatched) + [s.slots[m.slot].ev];
    }
    forall e ensures Balanced(DoSlot(s, m), e) {
      assert Balanced(s, e);
      InFlightUpdate(s.slots, m.slot, SlotStep(s, m), e);
      if m.Finish? {
        CountAppend(Events(s.dispatched), s.slots[m.slot].ev, e);
      }
    }
  }

  lemma ApplyConserves(s: State, m: Move)
    requires Conserved(s) && DispatchesOk(s)
    ensures Conserved(Apply(s, m))
  {
    hide InFlight, Count, DoPublish, DoTake, DoSlot, DispatchesOk;
    if Enabled(s, m) {
      match m
      case Publish(ev) => PublishConserves(s, ev);
      case Take(i) => TakeConserves(s, i);
      case Subscribe(_, _) =>
      case Unsubscribe(_, _) =>
      case Close =>
      case _ => SlotConserves(s, m);
    }
    var t := if Enabled(s, m) then Effect(s, m) else s;
    forall e ensures Balanced(Apply(s, m), e) {
      assert Balanced(s, e);
      assert Balanced(t, e);
    }
  }

  // ----- Dispatching -----

  lemma AllCalled(d: Dispatch, order: seq<SubID>)
    requires CallsFollow(d, order) && |d.calls| == |order|
    ensures CalledExactlyOnce(d)
  {
    forall id | id in d.snapshot ensures Invocation(id, d.snapshot[id]) in d.calls {
      var k :| 0 <= k < |order| && order[k] == id;
      assert d.calls[k] == Invocation(id, d.snapshot[id]);
    }
  }

  lemma SlotDispatches(s: State, m: Move)
    requires DispatchesOk(s)
    requires (m.Snapshot? || m.CallNext? || m.Finish? || m.Stop?) && Enabled(s, m)
    ensures DispatchesOk(DoSlot(s, m))
  {
    assert SlotOk(s.slots[m.slot]);
    if m.Finish? {
      AllCalled(s.slots[m.slot].dispatch, s.slots[m.slot].order);
    }
    assert SlotOk(SlotStep(s, m));
  }

  lemma ApplyDispatches(s: State, m: Move)
    requires DispatchesOk(s)
    ensures DispatchesOk(Apply(s, m))
  {
    if Enabled(s, m) && (m.Snapshot? || m.CallNext? || m.Finish? || m.Stop?) {
      SlotDispatches(s, m);
    }
  }

  /** The queue is first-in first-out, and refuses only when it is full. */
  lemma ApplyQueue(s: State, m: Move)
    requires QueueOk(s)
    ensures QueueOk(Apply(s, m))
    ensures Apply(s, m).dropped != s.dropped ==> m.Publish? && |s.queue| == 2048
  {
    if m.Take? && Enabled(s, m) {
      assert s.queue == [s.queue[0]] + s.queue[1..];
      assert s.taken + [s.queue[0]] + s.queue[1..] == s.taken + s.queue;
    }
  }

  /** In asynchronous mode four workers dispatch, and none gives up before `Close`. */
  ghost predicate WorkersOk(s: State) {
    s.mode == Async ==>
      |s.slots| == 4 && forall i :: 0 <= i < |s.slots| && s.slots[i].Stopped? ==> s.closed
  }

  lemma ApplyWorkers(s: State, m: Move)
    requires WorkersOk(s)
    ensures WorkersOk(Apply(s, m))
  {
  }

  /** What publishing does: in synchronous mode the publisher itself holds the event; otherwise
      it joins the end of the queue, or is dropped when 2048 events are waiting. */
  lemma PublishEffect(s: State, ev: Event)
    ensures var t := Apply(s, Publish(ev));
            && t.published == s.published + [ev]
            && t.slots == (if s.mode == Sync then s.slots + [Taken(ev)] else s.slots)
            && t.queue == (if s.mode == Async && |s.queue| < 2048 then s.queue + [ev] else s.queue)
            && t.dropped == (if s.mode == Async && |s.queue| >= 2048 then s.dropped + [ev] else s.dropped)
            && t.subs == s.subs && t.dispatched == s.dispatched
  {
  }

  /** The events of the `Publish` moves, in order. */
  function PublishedIn(moves: seq<Move>): seq<Event> {
    if moves == [] then []
    else
      var m, before := moves[|moves| - 1], PublishedIn(moves[..|moves| - 1]);
      if m.Publish? then before + [m.ev] else before
  }

  lemma PublishOrClose(s: State, m: Move)
    ensures Apply(s, m).published == if m.Publish? then s.published + [m.ev] else s.published
    ensures Apply(s, m).closed <==> s.closed || m == Close
  {
  }

  /** Closing is remembered, takes nothing away, and lets an idle worker stop. */
  lemma CloseLetsWorkersStop(s: State, i: nat)
    requires i < |s.slots| && s.slots[i].Idle?
    ensures var t := Apply(s, Close);
            && t == s.(closed := true, clock := s.clock + 1)
            && Apply(t, Stop(i)) == t.(slots := s.slots[i := Stopped], clock := s.clock + 2)
  {
  }

  lemma ApplyKeepsMode(s: State, m: Move)
    ensures Apply(s, m).mode == s.mode
  {
  }

  lemma {:induction false} IdleHoldsNothing(slots: seq<Slot>, e: Event)
    requires forall i :: 0 <= i < |slots| ==> slots[i].Idle?
    ensures InFlight(slots, e) == 0
  {
    if slots == [] {
    } else {
      IdleHoldsNothing(slots[..|slots| - 1], e);
    }
  }

  lemma EmptyBus(mode: Mode)
    ensures var s := NewBus(mode); Conserved(s) && QueueOk(s) && DispatchesOk(s)
  {
    var s := NewBus(mode);
    forall e ensures Balanced(s, e) {
      IdleHoldsNothing(s.slots, e);
    }
  }

  /** In every run, in either mode: what the publishers sent, copy for copy and in order, is what
      the conservation law is about; nothing of it is lost or duplicated, the queue stays within its
      capacity and is first-in first-out, no more than four workers dispatch from it, and every
      finished dispatch called its copied subscribers exactly once each. */
  lemma {:induction false} EveryRun(mode: Mode, moves: seq<Move>)
    ensures var s := Run(mode, moves);
            && Conserved(s) && QueueOk(s) && DispatchesOk(s) && WorkersOk(s)
            && s.published == PublishedIn(moves) && (s.closed <==> Close in moves)
            && s.clock == |moves| && s.mode == mode
  {
    if moves == [] {
      EmptyBus(mode);
    } else {
      hide Conserved, QueueOk, DispatchesOk, WorkersOk, Effect;
      var s, m := Run(mode, moves[..|moves| - 1]), moves[|moves| - 1];
      EveryRun(mode, moves[..|moves| - 1]);
      ApplyConserves(s, m);
      ApplyQueue(s, m);
      ApplyDispatches(s, m);
      ApplyWorkers(s, m);
      ApplyKeepsMode(s, m);
      PublishOrClose(s, m);
    }
  }

  // ----- Snapshots and subscriptions over time -----

  ghost predicate SnapshotReal(mode: Mode, moves: seq<Move>, d: Dispatch) {
    d.at < |moves| && d.snapshot == SubsOf(Run(mode, moves[..d.at]), d.ev.kind)
  }

  /** All dispatches a state knows of, running or finished. */
  ghost predicate Known(s: State, d: Dispatch) {
    d in s.dispatched || exists i :: 0 <= i < |s.slots| && s.slots[i].Calling? && s.slots[i].dispatch == d
  }

  /** A dispatch that a move brings in was known before, or differs from one only in its calls,
      or has just copied the subscribers. */
  lemma DispatchOrigin(s: State, m: Move, d: Dispatch)
    requires Known(Apply(s, m), d)
    ensures (exists c :: Known(s, c) && d == c.(calls := d.calls))
            || (d.at == s.clock && d.snapshot == SubsOf(s, d.ev.kind))
  {
    var s' := Apply(s, m);
    if d in s.dispatched {
      assert Known(s, d) && d == d.(calls := d.calls);
    } else if d in s'.dispatched {
      assert m.Finish? && s.slots[m.slot].dispatch == d;
      assert Known(s, d) && d == d.(calls := d.calls);
    } else {
      var i :| 0 <= i < |s'.slots| && s'.slots[i].Calling? && s'.slots[i].dispatch == d;
      if i < |s.slots| && s.slots[i].Calling? {
        assert Known(s, s.slots[i].dispatch);
      }
    }
  }

  /** The subscribers a dispatch calls are those of its event's type at one moment of the run:
      when it took its copy. */
  lemma {:induction false} SnapshotsAreReal(mode: Mode, moves: seq<Move>, d: Dispatch)
    requires Known(Run(mode, moves), d)
    ensures SnapshotReal(mode, moves, d)
  {
    if moves == [] {
    } else {
      hide Apply, SubsOf, Known;
      var before, m := moves[..|moves| - 1], moves[|moves| - 1];
      var s := Run(mode, before);
      assert s.clock == |before| by {
        EveryRun(mode, before);
      }
      DispatchOrigin(s, m, d);
      if d.at == s.clock && d.snapshot == SubsOf(s, d.ev.kind) {
        assert moves[..d.at] == before;
      } else {
        var c :| Known(s, c) && d == c.(calls := d.calls);
        SnapshotsAreReal(mode, before, c);
        assert moves[..d.at] == before[..d.at];
      }
    }
  }

  /** Identifiers are never used twice. */
  ghost predicate IDsOk(s: State) {
    forall kind, id :: kind in s.subs && id in s.subs[kind] ==> id <= s.nextID
  }

  lemma ApplyIDs(s: State, m: Move)
    requires IDsOk(s)
    ensures IDsOk(Apply(s, m))
  {
  }

  lemma {:induction false} RunIDs(mode: Mode, moves: seq<Move>)
    ensures IDsOk(Run(mode, moves))
  {
    if moves == [] {
    } else {
      hide IDsOk, Apply;
      RunIDs(mode, moves[..|moves| - 1]);
      ApplyIDs(Run(mode, moves[..|moves| - 1]), moves[|moves| - 1]);
    }
  }

  /** Subscribing adds one subscription, under an identifier nobody has, and touches no other;
      calling the unsubscribe function it returned undoes exactly that, and a second call does
      nothing. */
  lemma SubscribeRoundTrip(s: State, kind: Kind, h: Handler, k: Kind)
    requires IDsOk(s)
    ensures var id, s1 := s.nextID + 1, Apply(s, Subscribe(kind, h));
            var s2 := Apply(s1, Unsubscribe(kind, id));
            && id !in SubsOf(s, k)
            && SubsOf(s1, k) == (if k == kind then SubsOf(s, k)[id := h] else SubsOf(s, k))
            && SubsOf(s2, k) == SubsOf(s, k)
            && SubsOf(Apply(s2, Unsubscribe(kind, id)), k) == SubsOf(s2, k)
  {
  }

  lemma StaysUnsubscribed(s: State, m: Move, kind: Kind, id: SubID)
    requires id <= s.nextID && id !in SubsOf(s, kind)
    ensures id <= Apply(s, m).nextID && id !in SubsOf(Apply(s, m), kind)
  {
  }

  /** Once a subscription is gone it stays gone: no later moment of the run has it again. */
  lemma {:induction false} UnsubscribedForGood(mode: Mode, moves: seq<Move>, more: seq<Move>, kind: Kind, id: SubID)
    requires var s := Run(mode, moves); id <= s.nextID && id !in SubsOf(s, kind)
    ensures var s := Run(mode, moves + more); id <= s.nextID && id !in SubsOf(s, kind)
  {
    hide Apply, SubsOf;
    if more == [] {
      assert moves + more == moves;
    } else {
      var n := |more| - 1;
      UnsubscribedForGood(mode, moves, more[..n], kind, id);
      assert (moves + more)[..|moves| + n] == moves + more[..n];
      StaysUnsubscribed(Run(mode, moves + more[..n]), more[n], kind, id);
    }
  }
}
