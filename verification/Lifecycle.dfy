// Start, Stop, Enqueue, context cancellation and the tick goroutine, interleaved at
// every point where one of them can lose the mutex (internal/game/room/lifecycle.go).

module Lifecycle {
  datatype Status = Created | Running | Draining | Closed

  datatype Loop = NotLaunched | Live | Exited

  /** Where a Stop call stands after leaving its first critical section. */
  datatype StopAt = Cancelling | Waiting | Closing

  type Caller = nat

  type Item = nat

  datatype State = State(
    status: Status,
    loop: Loop,
    launches: nat,
    doneClosed: nat,
    cancelled: bool,
    parentCancelled: bool,
    stopping: map<Caller, StopAt>,
    sending: map<Caller, Item>,
    queue: seq<Item>,
    accepted: seq<Item>,
    handled: seq<Item>)

  const FRESH := State(Created, NotLaunched, 0, 0, false, false, map[], map[], [], [], [])

  datatype Event =
    | StartCall
    | StopEnter(c: Caller)
    | StopCancel(c: Caller)
    | StopWake(c: Caller)
    | StopClose(c: Caller)
    | EnqueueCheck(c: Caller, item: Item)
    | EnqueueSend(c: Caller)
    | ParentCancel
    | LoopHandle
    | LoopExit

  predicate Enabled(s: State, ev: Event) {
    match ev
    case StopEnter(c) => c !in s.stopping
    case StopCancel(c) => c in s.stopping && s.stopping[c] == Cancelling
    case StopWake(c) => c in s.stopping && s.stopping[c] == Waiting && s.doneClosed > 0
    case StopClose(c) => c in s.stopping && s.stopping[c] == Closing
    case EnqueueCheck(c, _) => c !in s.sending
    case EnqueueSend(c) => c in s.sending
    case LoopHandle => s.loop == Live && s.queue != []
    case LoopExit => s.loop == Live && (s.cancelled || s.parentCancelled)
    case _ => true
  }

  function Next(s: State, ev: Event, capacity: nat): State
    requires Enabled(s, ev)
  {
    match ev
    case StartCall =>
      if s.status != Created then s
      else s.(status := Running, loop := Live, launches := s.launches + 1)
    case StopEnter(c) =>
      (match s.status
       case Closed => s
       case Created => s.(status := Closed)
       case _ => s.(status := Draining, stopping := s.stopping[c := Cancelling]))
    case StopCancel(c) => s.(cancelled := true, stopping := s.stopping[c := Waiting])
    case StopWake(c) => s.(stopping := s.stopping[c := Closing])
    case StopClose(c) => s.(status := Closed, stopping := s.stopping - {c})
    case EnqueueCheck(c, item) => if s.status != Running then s else s.(sending := s.sending[c := item])
    case EnqueueSend(c) =>
      var rest := s.(sending := s.sending - {c});
      if |s.queue| >= capacity then rest
      else rest.(queue := s.queue + [s.sending[c]], accepted := s.accepted + [s.sending[c]])
    case ParentCancel => s.(parentCancelled := true)
    case LoopHandle => s.(queue := s.queue[1..], handled := s.handled + [s.queue[0]])
    case LoopExit => s.(loop := Exited, doneClosed := s.doneClosed + 1)
  }

  /** The state after the events; an event that is not enabled is skipped. */
  ghost function After(events: seq<Event>, capacity: nat): State {
    if events == [] then FRESH
    else
      var s := After(events[..|events| - 1], capacity);
      if Enabled(s, events[|events| - 1]) then Next(s, events[|events| - 1], capacity) else s
  }

  // ----- The invariant -----------------------------------------------------------

  ghost predicate Sound(s: State, capacity: nat) {
    && s.launches <= 1 && s.doneClosed <= 1
    && (s.loop == NotLaunched <==> s.launches == 0)
    && (s.loop == Exited <==> s.doneClosed == 1)
    && (s.status == Created ==> s.loop == NotLaunched && s.sending == map[] && s.accepted == [])
    && (s.status == Running || s.status == Draining ==> s.launches == 1)
    && (s.status == Closed ==> s.loop != Live)
    && (s.cancelled || s.stopping != map[] ==> (s.status == Draining || s.status == Closed) && s.launches == 1)
    && (forall c :: c in s.stopping && s.stopping[c] != Cancelling ==> s.cancelled)
    && (forall c :: c in s.stopping && s.stopping[c] == Closing ==> s.loop == Exited)
    && (s.loop == Exited ==> s.cancelled || s.parentCancelled)
    && |s.queue| <= capacity && s.accepted == s.handled + s.queue
  }

  lemma NextSound(s: State, ev: Event, capacity: nat)
    requires Sound(s, capacity) && Enabled(s, ev)
    ensures Sound(Next(s, ev, capacity), capacity)
  {
    assert ev.LoopHandle? ==> s.queue == [s.queue[0]] + s.queue[1..];
    assert ev.StopCancel? || ev.StopWake? || ev.StopClose? ==> s.stopping != map[];
  }

  /** In every interleaving: the goroutine is launched at most once and `done` closed at most once; Closed
      means the loop has exited or never ran; accepted commands are handled once, in order, or still queued;
      and the loop of a room that says Running is dead or free to die exactly when the parent context was
      cancelled. */
  lemma {:induction false} LifecycleSound(events: seq<Event>, capacity: nat)
    ensures Sound(After(events, capacity), capacity)
    ensures var s := After(events, capacity);
      && (s.status == Closed ==> s.loop == Exited || s.loop == NotLaunched)
      && (s.status == Running ==> (s.loop == Exited || Enabled(s, LoopExit) <==> s.parentCancelled))
  {
    if events != [] {
      var front, last := events[..|events| - 1], events[|events| - 1];
      LifecycleSound(front, capacity);
      if Enabled(After(front, capacity), last) {
        NextSound(After(front, capacity), last, capacity);
      }
      hide Next, Enabled;
    }
  }

  // ----- Progress of the status ---------------------------------------------------

  function Rank(s: Status): nat {
    match s
    case Created => 0
    case Running => 1
    case Draining => 2
    case Closed => 3
  }

  /** Status only moves forward between any two points of a run. */
  lemma {:induction false} StatusMovesForward(events: seq<Event>, capacity: nat, n: nat)
    requires n <= |events|
    ensures Rank(After(events[..n], capacity).status) <= Rank(After(events, capacity).status)
    decreases |events| - n
  {
    if n < |events| {
      var front := events[..|events| - 1];
      StatusMovesForward(front, capacity, n);
      assert front[..n] == events[..n];
      LifecycleSound(front, capacity);
      StepForward(After(front, capacity), events[|events| - 1], capacity);
      hide Next, Enabled;
    } else {
      assert events[..n] == events;
    }
  }

  lemma StepForward(s: State, ev: Event, capacity: nat)
    requires Sound(s, capacity)
    ensures Enabled(s, ev) ==> Rank(s.status) <= Rank(Next(s, ev, capacity).status)
  {
  }

  lemma AfterOneMore(events: seq<Event>, ev: Event, capacity: nat)
    ensures var s := After(events, capacity);
      After(events + [ev], capacity) == if Enabled(s, ev) then Next(s, ev, capacity) else s
  {
    hide Next, Enabled;
    assert (events + [ev])[..|events|] == events;
  }

  /** A pending Stop call can always complete: its own steps and the exit of the loop, skipping those
      already taken, lead from wherever the run stands to a closed room. */
  lemma StopCanComplete(events: seq<Event>, capacity: nat, c: Caller)
    requires c in After(events, capacity).stopping
    ensures var s := After(events + [StopCancel(c)] + [LoopExit] + [StopWake(c)] + [StopClose(c)], capacity);
      c !in s.stopping && s.status == Closed && s.loop == Exited
  {
    var one := events + [StopCancel(c)];
    var two := one + [LoopExit];
    var three := two + [StopWake(c)];
    LifecycleSound(events, capacity);
    AfterOneMore(events, StopCancel(c), capacity);
    AfterOneMore(one, LoopExit, capacity);
    AfterOneMore(two, StopWake(c), capacity);
    AfterOneMore(three, StopClose(c), capacity);
    hide After;
    assert After(one, capacity).cancelled && After(one, capacity).stopping[c] != Cancelling;
    assert After(two, capacity).loop == Exited && After(two, capacity).doneClosed > 0;
    assert After(three, capacity).stopping[c] == Closing;
  }

  /** A call gets as far as sending exactly when it found the room Running, and a command that is sent is
      accepted, at the end of the queue, exactly when the queue has room. */
  lemma EnqueueAnswered(events: seq<Event>, capacity: nat, c: Caller, item: Item)
    requires c !in After(events, capacity).sending
    ensures var s, t := After(events, capacity), After(events + [EnqueueCheck(c, item)], capacity);
      && (c in t.sending <==> s.status == Running)
      && (s.status == Running ==>
            var u := After(events + [EnqueueCheck(c, item)] + [EnqueueSend(c)], capacity);
            if |s.queue| < capacity then u.queue == s.queue + [item] && u.accepted == s.accepted + [item]
            else u.queue == s.queue && u.accepted == s.accepted)
  {
    AfterOneMore(events, EnqueueCheck(c, item), capacity);
    AfterOneMore(events + [EnqueueCheck(c, item)], EnqueueSend(c), capacity);
    hide After;
  }

  /** A Stop always takes hold: the room is then Draining or Closed; a room that was never started is Closed
      at once, without a loop; otherwise the caller waits for the loop. */
  lemma StopTakesHold(events: seq<Event>, capacity: nat, c: Caller)
    requires c !in After(events, capacity).stopping
    ensures var s, t := After(events, capacity), After(events + [StopEnter(c)], capacity);
      && (t.status == Draining || t.status == Closed)
      && (s.status == Created ==> t.status == Closed && t.loop == NotLaunched)
      && (s.status == Running || s.status == Draining ==> t.status == Draining && c in t.stopping)
  {
    AfterOneMore(events, StopEnter(c), capacity);
    LifecycleSound(events, capacity);
  }

  lemma StoppedStep(s: State, ev: Event, capacity: nat)
    requires (s.status == Draining || s.status == Closed) && Enabled(s, ev)
    ensures var t := Next(s, ev, capacity);
      && (t.status == Draining || t.status == Closed) && t.launches == s.launches
      && t.sending.Keys <= s.sending.Keys && |t.sending| + |t.accepted| <= |s.sending| + |s.accepted|
  {
    if ev.EnqueueSend? {
      var rest := s.sending - {ev.c};
      assert s.sending.Keys == rest.Keys + {ev.c};
      assert |s.sending| == |s.sending.Keys| && |rest| == |rest.Keys|;
    }
  }

  /** Once a room is Draining or Closed, no later Start launches the loop and no new caller gets a command in:
      only calls that had passed the status check can still add theirs. */
  lemma {:induction false} StoppedForGood(events: seq<Event>, more: seq<Event>, capacity: nat)
    requires var s := After(events, capacity); s.status == Draining || s.status == Closed
    ensures var s, t := After(events, capacity), After(events + more, capacity);
      && (t.status == Draining || t.status == Closed) && t.launches == s.launches
      && t.sending.Keys <= s.sending.Keys && |t.sending| + |t.accepted| <= |s.sending| + |s.accepted|
    decreases |more|
  {
    hide After, Next, Enabled;
    if more == [] {
      assert events + more == events;
    } else {
      var front, last := more[..|more| - 1], more[|more| - 1];
      StoppedForGood(events, front, capacity);
      AfterOneMore(events + front, last, capacity);
      assert events + more == events + front + [last];
      if Enabled(After(events + front, capacity), last) {
        StoppedStep(After(events + front, capacity), last, capacity);
      }
    }
  }

  lemma ExitedStaysStill(s: State, ev: Event, capacity: nat)
    requires Sound(s, capacity) && s.loop == Exited && Enabled(s, ev)
    ensures var t := Next(s, ev, capacity);
      t.loop == Exited && t.handled == s.handled && s.queue <= t.queue && s.accepted <= t.accepted
  {
  }

  /** What the loop leaves behind is lost: once it has exited, in every continuation nothing more is handled
      and whatever was queued stays queued. */
  lemma {:induction false} ExitLosesQueue(events: seq<Event>, more: seq<Event>, capacity: nat)
    requires After(events, capacity).loop == Exited
    ensures var s, t := After(events, capacity), After(events + more, capacity);
      t.loop == Exited && t.handled == s.handled && s.queue <= t.queue && s.accepted <= t.accepted
    decreases |more|
  {
    hide After, Next, Enabled, Sound;
    if more == [] {
      assert events + more == events;
    } else {
      var front, last := more[..|more| - 1], more[|more| - 1];
      ExitLosesQueue(events, front, capacity);
      AfterOneMore(events + front, last, capacity);
      assert events + more == events + front + [last];
      LifecycleSound(events + front, capacity);
      if Enabled(After(events + front, capacity), last) {
        ExitedStaysStill(After(events + front, capacity), last, capacity);
      }
    }
  }

  lemma StepAt(run: seq<Event>, n: nat, capacity: nat)
    requires n < |run|
    ensures After(run[..0], capacity) == FRESH && run[..|run|] == run
    ensures var s := After(run[..n], capacity);
      After(run[..n + 1], capacity) == if Enabled(s, run[n]) then Next(s, run[n], capacity) else s
  {
    hide Next, Enabled;
    assert run[..n + 1][..n] == run[..n];
  }

  /** A Stop can lose an accepted command: the room is Closed, the command accepted and never handled. */
  lemma StopLosesAccepted(capacity: nat, item: Item, c: Caller)
    requires capacity > 0
    ensures var s := After([StartCall, EnqueueCheck(c, item), EnqueueSend(c), StopEnter(c), StopCancel(c), LoopExit,
                            StopWake(c), StopClose(c)], capacity);
      s.status == Closed && s.accepted == [item] && s.handled == []
  {
    var run := [StartCall, EnqueueCheck(c, item), EnqueueSend(c), StopEnter(c), StopCancel(c), LoopExit,
                StopWake(c), StopClose(c)];
    hide After;
    StepAt(run, 0, capacity);
    StepAt(run, 1, capacity);
    StepAt(run, 2, capacity);
    var sent := After(run[..3], capacity);
    assert sent == FRESH.(status := Running, loop := Live, launches := 1, queue := [item], accepted := [item]);
    StepAt(run, 3, capacity);
    StepAt(run, 4, capacity);
    StepAt(run, 5, capacity);
    var exited := After(run[..6], capacity);
    assert exited == sent.(status := Draining, loop := Exited, doneClosed := 1, cancelled := true,
                           stopping := map[c := Waiting]);
    StepAt(run, 6, capacity);
    StepAt(run, 7, capacity);
  }

  /** A cancelled parent leaves a room that still says Running and accepts commands nobody will handle. */
  lemma ParentCancelLeavesRunning(capacity: nat, item: Item)
    requires capacity > 0
    ensures var s := After([StartCall, ParentCancel, LoopExit, EnqueueCheck(0, item), EnqueueSend(0)], capacity);
      s.status == Running && s.loop == Exited && s.queue == [item]
  {
    var run := [StartCall, ParentCancel, LoopExit, EnqueueCheck(0, item), EnqueueSend(0)];
    StepAt(run, 0, capacity);
    StepAt(run, 1, capacity);
    StepAt(run, 2, capacity);
    StepAt(run, 3, capacity);
    StepAt(run, 4, capacity);
    hide After;
  }
}
