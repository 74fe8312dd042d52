// What holds of the locks in every run: the cap, the accounting and the lease.

module LockRuns {
  import opened Common
  import opened Locks

  datatype LockEvent =
    | Sweep(at: Time)
    | TryAcquire(id: ObjectID, user: UserID, session: SessionID, at: Time)
    | TryRefresh(id: ObjectID, user: UserID, at: Time)
    | TryRelease(id: ObjectID, user: UserID, at: Time)
    | SessionEnd(session: SessionID)
    | CreateObject(id: ObjectID, kind: string, transform: ObjectTransform)
    | UpdateTransform(id: ObjectID, transform: ObjectTransform)
    | UpdateState(id: ObjectID, state: seq<int>)
    | Deactivate(id: ObjectID)
    | RemoveObject(id: ObjectID)

  ghost function Step(t: LockTable, lease: LockLease, ev: LockEvent): LockTable {
    match ev
    case Sweep(at) => ReleaseAll(t, Expired(t.objects, at))
    case TryAcquire(id, user, session, at) => Acquire(t, lease, id, user, session, at).table
    case TryRefresh(id, user, at) => Refresh(t, lease, id, user, at).table
    case TryRelease(id, user, at) => Release(t, id, user, at).table
    case SessionEnd(session) => ReleaseAll(t, OfSession(t.objects, session))
    case CreateObject(id, kind, transform) => Create(t, id, kind, transform)
    case UpdateTransform(id, transform) => SetTransform(t, id, transform)
    case UpdateState(id, state) => SetCustomState(t, id, state)
    case Deactivate(id) => MarkInactive(t, id)
    case RemoveObject(id) => Remove(t, id)
  }

  ghost function Run(t: LockTable, lease: LockLease, events: seq<LockEvent>): LockTable {
    if events == [] then t
    else Step(Run(t, lease, events[..|events| - 1]), lease, events[|events| - 1])
  }

  lemma RunPrefix(t: LockTable, lease: LockLease, events: seq<LockEvent>, n: nat)
    requires n < |events|
    ensures Run(t, lease, events[..0]) == t && events[..|events|] == events
    ensures Run(t, lease, events[..n + 1]) == Step(Run(t, lease, events[..n]), lease, events[n])
  {
    hide Step;
    assert events[..n + 1][..n] == events[..n];
  }

  // ----- Counting holders --------------------------------------------------------

  ghost function Holds(objects: map<ObjectID, ObjectState>, id: ObjectID, user: UserID): nat {
    if id in objects && objects[id].lock.lockedBy == user then 1 else 0
  }

  lemma HeldAfterUpdate(objects: map<ObjectID, ObjectState>, id: ObjectID, o: ObjectState, user: UserID)
    ensures |HeldBy(objects[id := o], user)|
         == |HeldBy(objects, user)| - Holds(objects, id, user) + if o.lock.lockedBy == user then 1 else 0
  {
    var before, after := HeldBy(objects, user), HeldBy(objects[id := o], user);
    var rest := before - {id};
    assert before == if id in before then rest + {id} else rest;
    assert after == if o.lock.lockedBy == user then rest + {id} else rest;
  }

  lemma HeldAfterRemove(objects: map<ObjectID, ObjectState>, id: ObjectID, user: UserID)
    ensures |HeldBy(objects - {id}, user)| == |HeldBy(objects, user)| - Holds(objects, id, user)
  {
    var before, after := HeldBy(objects, user), HeldBy(objects - {id}, user);
    assert before == if id in before then after + {id} else after;
  }

  lemma HeldAfterReleaseAll(t: LockTable, ids: set<ObjectID>, user: UserID)
    requires user != ""
    ensures |HeldBy(ReleaseAll(t, ids).objects, user)| == |HeldBy(t.objects, user)| - Share(t.objects, ids, user)
  {
    var before, after := HeldBy(t.objects, user), HeldBy(ReleaseAll(t, ids).objects, user);
    assert before == after + ids * before;
    assert after !! ids * before;
  }

  // ----- The cap -----------------------------------------------------------------

  /** Nobody holds more objects than the counter says, and no counter exceeds the cap. */
  ghost predicate Capped(t: LockTable, lease: LockLease) {
    && Positive(t.counts)
    && (forall u :: u in t.counts ==> t.counts[u] <= lease.maxLocksPerUser)
    && (forall u :: u != "" ==> |HeldBy(t.objects, u)| <= Count(t.counts, u))
  }

  lemma ReleaseAllCapped(t: LockTable, lease: LockLease, ids: set<ObjectID>)
    requires Capped(t, lease)
    ensures Capped(ReleaseAll(t, ids), lease)
  {
    forall u | u != ""
      ensures |HeldBy(ReleaseAll(t, ids).objects, u)| <= Count(ReleaseAll(t, ids).counts, u)
    {
      HeldAfterReleaseAll(t, ids, u);
      assert |HeldBy(t.objects, u)| <= Count(t.counts, u);
    }
  }

  // A lock the counters know about is cleared together with its count.
  lemma ClearedIsReleaseAll(t: LockTable, id: ObjectID)
    requires Positive(t.counts) && id in t.objects && t.objects[id].lock.lockedBy != ""
    ensures Cleared(t, id) == ReleaseAll(t, {id})
  {
    ReleaseNone(t);
    ReleaseOneMore(t, {}, id);
    assert {} + {id} == {id};
  }

  lemma UpdateCapped(t: LockTable, lease: LockLease, id: ObjectID, o: ObjectState)
    requires Capped(t, lease) && (o.lock.lockedBy == "" || Holds(t.objects, id, o.lock.lockedBy) == 1)
    ensures Capped(t.(objects := t.objects[id := o]), lease)
  {
    forall u | u != ""
      ensures |HeldBy(t.objects[id := o], u)| <= Count(t.counts, u)
    {
      HeldAfterUpdate(t.objects, id, o, u);
    }
  }

  lemma AcquireCapped(t: LockTable, lease: LockLease, id: ObjectID, user: UserID, session: SessionID, now: Time)
    requires Capped(t, lease)
    ensures Capped(Acquire(t, lease, id, user, session, now).table, lease)
  {
    var r := Acquire(t, lease, id, user, session, now).table;
    if r != t {
      var o := r.objects[id];
      forall u | u != ""
        ensures |HeldBy(r.objects, u)| <= Count(r.counts, u)
      {
        HeldAfterUpdate(t.objects, id, o, u);
      }
    }
  }

  lemma StepCapped(t: LockTable, lease: LockLease, ev: LockEvent)
    requires Capped(t, lease)
    ensures Capped(Step(t, lease, ev), lease)
  {
    hide Capped;
    match ev
    case Sweep(at) => ReleaseAllCapped(t, lease, Expired(t.objects, at));
    case SessionEnd(session) => ReleaseAllCapped(t, lease, OfSession(t.objects, session));
    case TryAcquire(id, user, session, at) => AcquireCapped(t, lease, id, user, session, at);
    case TryRelease(id, user, at) =>
      if Release(t, id, user, at).result.Granted? {
        assert Positive(t.counts) by { CappedPositive(t, lease); }
        ClearedIsReleaseAll(t, id);
        ReleaseAllCapped(t, lease, {id});
      }
    case RemoveObject(id) => RemoveCapped(t, lease, id);
    case TryRefresh(id, user, at) =>
      if Refresh(t, lease, id, user, at).result.Granted? {
        UpdateCapped(t, lease, id, Step(t, lease, ev).objects[id]);
      }
    case CreateObject(id, kind, transform) =>
      if id !in t.objects { UpdateCapped(t, lease, id, Step(t, lease, ev).objects[id]); }
    case UpdateTransform(id, transform) =>
      if id in t.objects { UpdateCapped(t, lease, id, Step(t, lease, ev).objects[id]); }
    case UpdateState(id, state) =>
      if id in t.objects { UpdateCapped(t, lease, id, Step(t, lease, ev).objects[id]); }
    case Deactivate(id) =>
      if id in t.objects && t.objects[id].active { UpdateCapped(t, lease, id, Step(t, lease, ev).objects[id]); }
  }

  lemma CappedPositive(t: LockTable, lease: LockLease)
    requires Capped(t, lease)
    ensures Positive(t.counts)
  {
  }

  lemma RemoveCapped(t: LockTable, lease: LockLease, id: ObjectID)
    requires Capped(t, lease)
    ensures Capped(Remove(t, id), lease)
  {
    forall u | u != ""
      ensures |HeldBy(t.objects - {id}, u)| <= Count(t.counts, u)
    {
      HeldAfterRemove(t.objects, id, u);
    }
  }

  /** The cap in every run, whatever the timestamps: no user holds more objects than its counter,
      and no counter exceeds max(0, MaxLocksPerUser). */
  lemma {:induction false} LocksStayCapped(lease: LockLease, events: seq<LockEvent>, user: UserID)
    ensures Capped(Run(EMPTY_TABLE, lease, events), lease)
    ensures var t := Run(EMPTY_TABLE, lease, events);
      && 0 <= Count(t.counts, user) <= (if lease.maxLocksPerUser > 0 then lease.maxLocksPerUser else 0)
      && (user != "" ==> |HeldBy(t.objects, user)| <= Count(t.counts, user))
  {
    if events != [] {
      LocksStayCapped(lease, events[..|events| - 1], user);
      StepCapped(Run(EMPTY_TABLE, lease, events[..|events| - 1]), lease, events[|events| - 1]);
    }
  }

  // ----- The accounting ----------------------------------------------------------

  /** Every user's counter is the number of objects it holds. */
  ghost predicate Exact(t: LockTable) {
    && Positive(t.counts)
    && forall u :: u != "" ==> Count(t.counts, u) == |HeldBy(t.objects, u)|
  }

  /** The two ways a counter and the table part: a grant over a lapsed, unswept lock,
      and the removal of a locked object. */
  ghost predicate Leaks(t: LockTable, lease: LockLease, ev: LockEvent) {
    match ev
    case TryAcquire(id, user, session, at) =>
      && id in t.objects && t.objects[id].active
      && t.objects[id].lock.lockedBy != "" && t.objects[id].lock.until <= at
      && Count(t.counts, user) < lease.maxLocksPerUser
    case RemoveObject(id) => id in t.objects && t.objects[id].lock.lockedBy != ""
    case _ => false
  }

  lemma ReleaseAllExact(t: LockTable, ids: set<ObjectID>)
    requires Exact(t)
    ensures Exact(ReleaseAll(t, ids))
  {
    forall u | u != ""
      ensures Count(ReleaseAll(t, ids).counts, u) == |HeldBy(ReleaseAll(t, ids).objects, u)|
    {
      HeldAfterReleaseAll(t, ids, u);
      SubsetSize(ids * HeldBy(t.objects, u), HeldBy(t.objects, u));
    }
  }

  lemma UpdateExact(t: LockTable, id: ObjectID, o: ObjectState)
    requires Exact(t) && (id in t.objects ==> o.lock.lockedBy == t.objects[id].lock.lockedBy)
    requires id !in t.objects ==> o.lock.lockedBy == ""
    ensures Exact(t.(objects := t.objects[id := o]))
  {
    forall u | u != ""
      ensures |HeldBy(t.objects[id := o], u)| == Count(t.counts, u)
    {
      HeldAfterUpdate(t.objects, id, o, u);
    }
  }

  lemma AcquireExact(t: LockTable, lease: LockLease, id: ObjectID, user: UserID, session: SessionID, now: Time)
    requires Exact(t)
    ensures Exact(Acquire(t, lease, id, user, session, now).table)
      <==> !Leaks(t, lease, TryAcquire(id, user, session, now))
  {
    var r := Acquire(t, lease, id, user, session, now).table;
    if Leaks(t, lease, TryAcquire(id, user, session, now)) {
      var owner := t.objects[id].lock.lockedBy;
      HeldAfterUpdate(t.objects, id, r.objects[id], owner);
      assert Count(r.counts, owner) != |HeldBy(r.objects, owner)|;
    } else if r != t {
      if t.objects[id].lock.IsLocked(now) {
        UpdateExact(t, id, r.objects[id]);
      } else {
        forall u | u != ""
          ensures Count(r.counts, u) == |HeldBy(r.objects, u)|
        {
          HeldAfterUpdate(t.objects, id, r.objects[id], u);
        }
      }
    }
  }

  lemma RemoveExact(t: LockTable, id: ObjectID)
    requires Exact(t)
    ensures Exact(Remove(t, id)) <==> !(id in t.objects && t.objects[id].lock.lockedBy != "")
  {
    if id in t.objects && t.objects[id].lock.lockedBy != "" {
      HeldAfterRemove(t.objects, id, t.objects[id].lock.lockedBy);
      assert Count(t.counts, t.objects[id].lock.lockedBy) != |HeldBy(t.objects - {id}, t.objects[id].lock.lockedBy)|;
    } else {
      forall u | u != ""
        ensures |HeldBy(t.objects - {id}, u)| == Count(t.counts, u)
      {
        HeldAfterRemove(t.objects, id, u);
      }
    }
  }

  /** From exact counters, a step keeps them exact if and only if it is not one of the two leaks. */
  lemma ExactUnlessLeak(t: LockTable, lease: LockLease, ev: LockEvent)
    requires Exact(t)
    ensures Exact(Step(t, lease, ev)) <==> !Leaks(t, lease, ev)
  {
    match ev
    case TryAcquire(id, user, session, at) => AcquireExact(t, lease, id, user, session, at);
    case RemoveObject(id) => RemoveExact(t, id);
    case Sweep(at) => ReleaseAllExact(t, Expired(t.objects, at));
    case SessionEnd(session) => ReleaseAllExact(t, OfSession(t.objects, session));
    case TryRelease(id, user, at) =>
      if Release(t, id, user, at).result.Granted? {
        ClearedIsReleaseAll(t, id);
        ReleaseAllExact(t, {id});
      }
    case TryRefresh(id, user, at) =>
      if Refresh(t, lease, id, user, at).result.Granted? {
        UpdateExact(t, id, Step(t, lease, ev).objects[id]);
      }
    case CreateObject(id, kind, transform) =>
      if id !in t.objects { UpdateExact(t, id, Step(t, lease, ev).objects[id]); }
    case UpdateTransform(id, transform) =>
      if id in t.objects { UpdateExact(t, id, Step(t, lease, ev).objects[id]); }
    case UpdateState(id, state) =>
      if id in t.objects { UpdateExact(t, id, Step(t, lease, ev).objects[id]); }
    case Deactivate(id) =>
      if id in t.objects && t.objects[id].active { UpdateExact(t, id, Step(t, lease, ev).objects[id]); }
  }

  /** The step leaves this user charged for a lock it no longer holds, or charged twice for one. */
  ghost predicate LeaksAgainst(t: LockTable, lease: LockLease, ev: LockEvent, user: UserID) {
    Leaks(t, lease, ev) && t.objects[ev.id].lock.lockedBy == user
  }

  ghost function LeaksIn(lease: LockLease, events: seq<LockEvent>, user: UserID): nat {
    if events == [] then 0
    else
      var front := events[..|events| - 1];
      LeaksIn(lease, front, user)
      + if LeaksAgainst(Run(EMPTY_TABLE, lease, front), lease, events[|events| - 1], user) then 1 else 0
  }

  /** How many locks the user is charged for beyond those it holds. */
  ghost function Excess(t: LockTable, user: UserID): int {
    Count(t.counts, user) - |HeldBy(t.objects, user)|
  }

  lemma ReleaseAllExcess(t: LockTable, ids: set<ObjectID>, user: UserID)
    requires user != "" && Excess(t, user) >= 0
    ensures Excess(ReleaseAll(t, ids), user) == Excess(t, user)
  {
    HeldAfterReleaseAll(t, ids, user);
    SubsetSize(ids * HeldBy(t.objects, user), HeldBy(t.objects, user));
  }

  lemma AcquireExcess(t: LockTable, lease: LockLease, id: ObjectID, who: UserID, session: SessionID, now: Time,
                      user: UserID)
    requires user != ""
    ensures Excess(Acquire(t, lease, id, who, session, now).table, user) == Excess(t, user)
      + if LeaksAgainst(t, lease, TryAcquire(id, who, session, now), user) then 1 else 0
  {
    var r := Acquire(t, lease, id, who, session, now).table;
    if r != t {
      HeldAfterUpdate(t.objects, id, r.objects[id], user);
    }
  }

  lemma UpdateExcess(t: LockTable, id: ObjectID, o: ObjectState, user: UserID)
    requires user != "" && o.lock.lockedBy == if id in t.objects then t.objects[id].lock.lockedBy else ""
    ensures Excess(t.(objects := t.objects[id := o]), user) == Excess(t, user)
  {
    HeldAfterUpdate(t.objects, id, o, user);
  }

  lemma StepExcess(t: LockTable, lease: LockLease, ev: LockEvent, user: UserID)
    requires user != "" && Positive(t.counts) && Excess(t, user) >= 0
    ensures Excess(Step(t, lease, ev), user) == Excess(t, user) + if LeaksAgainst(t, lease, ev, user) then 1 else 0
  {
    hide Excess;
    match ev
    case TryAcquire(id, who, session, at) => AcquireExcess(t, lease, id, who, session, at, user);
    case RemoveObject(id) => RemoveExcess(t, id, user);
    case Sweep(at) => ReleaseAllExcess(t, Expired(t.objects, at), user);
    case SessionEnd(session) => ReleaseAllExcess(t, OfSession(t.objects, session), user);
    case TryRelease(id, who, at) =>
      if Release(t, id, who, at).result.Granted? {
        ClearedIsReleaseAll(t, id);
        ReleaseAllExcess(t, {id}, user);
      }
    case TryRefresh(id, who, at) =>
      if Refresh(t, lease, id, who, at).result.Granted? {
        UpdateExcess(t, id, Step(t, lease, ev).objects[id], user);
      }
    case CreateObject(id, kind, transform) =>
      if id !in t.objects { UpdateExcess(t, id, Step(t, lease, ev).objects[id], user); }
    case UpdateTransform(id, transform) =>
      if id in t.objects { UpdateExcess(t, id, Step(t, lease, ev).objects[id], user); }
    case UpdateState(id, state) =>
      if id in t.objects { UpdateExcess(t, id, Step(t, lease, ev).objects[id], user); }
    case Deactivate(id) =>
      if id in t.objects && t.objects[id].active { UpdateExcess(t, id, Step(t, lease, ev).objects[id], user); }
  }

  lemma RemoveExcess(t: LockTable, id: ObjectID, user: UserID)
    requires user != ""
    ensures Excess(Remove(t, id), user) == Excess(t, user)
      + if id in t.objects && t.objects[id].lock.lockedBy == user then 1 else 0
  {
    HeldAfterRemove(t.objects, id, user);
  }

  /** The accounting of every run, whatever the stamps: a user's counter is the number of objects it holds
      plus the number of leaks ever charged to it, so no leak is ever repaired. */
  lemma {:induction false} CountsAccounted(lease: LockLease, events: seq<LockEvent>, user: UserID)
    requires user != ""
    ensures var t := Run(EMPTY_TABLE, lease, events);
      Count(t.counts, user) == |HeldBy(t.objects, user)| + LeaksIn(lease, events, user)
  {
    if events == [] {
      assert HeldBy(EMPTY_TABLE.objects, user) == {};
    } else {
      var front, last := events[..|events| - 1], events[|events| - 1];
      var t := Run(EMPTY_TABLE, lease, front);
      CountsAccounted(lease, front, user);
      LocksStayCapped(lease, front, user);
      hide Step, LeaksAgainst;
      StepExcess(t, lease, last, user);
    }
  }

  lemma {:induction false} LeaksOnlyGrow(lease: LockLease, events: seq<LockEvent>, more: seq<LockEvent>, user: UserID)
    ensures LeaksIn(lease, events, user) <= LeaksIn(lease, events + more, user)
    decreases |more|
  {
    hide LeaksAgainst, Run;
    if more == [] {
      assert events + more == events;
    } else {
      var front := more[..|more| - 1];
      LeaksOnlyGrow(lease, events, front, user);
      assert (events + more)[..|events + more| - 1] == events + front;
    }
  }

  /** A user charged MaxLocksPerUser leaks is refused every lock for good. */
  lemma LeakedOutForGood(lease: LockLease, events: seq<LockEvent>, more: seq<LockEvent>, user: UserID,
                         o: ObjectID, session: SessionID, now: Time)
    requires user != "" && LeaksIn(lease, events, user) >= lease.maxLocksPerUser
    ensures Acquire(Run(EMPTY_TABLE, lease, events + more), lease, o, user, session, now).result != Granted
  {
    var t := Run(EMPTY_TABLE, lease, events + more);
    LeaksOnlyGrow(lease, events, more, user);
    CountsAccounted(lease, events + more, user);
    LocksStayCapped(lease, events + more, user);
    hide Run, LeaksIn;
    assert HeldBy(t.objects, user) == {};
    assert o in t.objects ==> (t.objects[o].lock.lockedBy == user <==> o in HeldBy(t.objects, user));
  }

  /** A leak is reached from an empty table: B's grant over A's lapsed, unswept lock leaves A charged
      for an object it no longer holds. */
  lemma LapsedGrantLeaks(lease: LockLease, o: ObjectID, a: UserID, b: UserID, sa: SessionID, sb: SessionID,
                         at: ObjectTransform)
    requires lease.maxLocksPerUser > 0 && a != "" && b != a
    ensures var t := Run(EMPTY_TABLE, lease,
                         [CreateObject(o, "", at), TryAcquire(o, a, sa, 0), TryAcquire(o, b, sb, lease.ttl)]);
      Count(t.counts, a) == 1 && HeldBy(t.objects, a) == {}
  {
    var run := [CreateObject(o, "", at), TryAcquire(o, a, sa, 0), TryAcquire(o, b, sb, lease.ttl)];
    RunPrefix(EMPTY_TABLE, lease, run, 0);
    RunPrefix(EMPTY_TABLE, lease, run, 1);
    RunPrefix(EMPTY_TABLE, lease, run, 2);
    hide Run;
  }

  /** The time of the last sweep; before the first one, the given time. */
  ghost function LastSweep(events: seq<LockEvent>, initial: Time): Time {
    if events == [] then initial
    else
      var last := events[|events| - 1];
      if last.Sweep? then last.at else LastSweep(events[..|events| - 1], initial)
  }

  /** Timestamps of drained commands lie in (T - TTL, T] for the sweep T before them,
      and no locked object is removed. */
  ghost predicate Timely(t: LockTable, lease: LockLease, events: seq<LockEvent>, initial: Time) {
    events == [] || (
      var front, last := events[..|events| - 1], events[|events| - 1];
      var sweep := LastSweep(front, initial);
      && Timely(t, lease, front, initial)
      && (last.TryAcquire? || last.TryRefresh? || last.TryRelease? ==> sweep - lease.ttl < last.at <= sweep)
      && (last.RemoveObject? ==> last.id in Run(t, lease, front).objects
                                 ==> Run(t, lease, front).objects[last.id].lock.lockedBy == ""))
  }

  /** No lease in the table lapses at or before the sweep time. */
  ghost predicate Swept(t: LockTable, sweep: Time) {
    forall id :: id in t.objects && t.objects[id].lock.lockedBy != "" ==> t.objects[id].lock.until > sweep
  }

  lemma StepSwept(t: LockTable, lease: LockLease, ev: LockEvent, sweep: Time)
    requires Swept(t, sweep)
    requires ev.TryAcquire? || ev.TryRefresh? || ev.TryRelease? ==> sweep - lease.ttl < ev.at <= sweep
    ensures Swept(Step(t, lease, ev), if ev.Sweep? then ev.at else sweep)
  {
    hide Count, Share;
  }

  /** Exact accounting: when every command drained after a sweep at T is stamped in (T - TTL, T] and
      no locked object is removed, each counter is always the number of objects the user holds. */
  lemma {:induction false} TimelyRunsCountExactly(lease: LockLease, events: seq<LockEvent>, initial: Time)
    requires Timely(EMPTY_TABLE, lease, events, initial)
    ensures Exact(Run(EMPTY_TABLE, lease, events))
    ensures Swept(Run(EMPTY_TABLE, lease, events), LastSweep(events, initial))
  {
    if events == [] {
      forall u ensures HeldBy(EMPTY_TABLE.objects, u) == {} {}
    } else {
      var front, last := events[..|events| - 1], events[|events| - 1];
      TimelyRunsCountExactly(lease, front, initial);
      var t := Run(EMPTY_TABLE, lease, front);
      ExactUnlessLeak(t, lease, last);
      StepSwept(t, lease, last, LastSweep(front, initial));
    }
  }

  // ----- The lease ---------------------------------------------------------------

  /** `user` holds the object at every time before `deadline`. */
  ghost predicate HoldsUntil(t: LockTable, id: ObjectID, user: UserID, deadline: Time) {
    id in t.objects && user != "" && t.objects[id].lock.lockedBy == user && t.objects[id].lock.until >= deadline
  }

  /** The owner does not give the object up (no release of its own, no renewal stamped before the grant, no end
      of the recorded session), it is not removed, and no sweep or acquire of it is stamped past the deadline. */
  ghost predicate Harmless(t: LockTable, ev: LockEvent, id: ObjectID, user: UserID, granted: Time, deadline: Time) {
    match ev
    case Sweep(at) => at < deadline
    case TryAcquire(o, u, _, at) => o == id ==> at < deadline && (u == user ==> granted <= at)
    case TryRefresh(o, u, at) => o == id && u == user ==> granted <= at
    case TryRelease(o, u, at) => !(o == id && u == user)
    case SessionEnd(s) => id in t.objects ==> t.objects[id].lock.session != s
    case RemoveObject(o) => o != id
    case _ => true
  }

  lemma HarmlessKeepsLease(t: LockTable, lease: LockLease, ev: LockEvent, id: ObjectID, user: UserID, granted: Time)
    requires lease.ttl > 0 && HoldsUntil(t, id, user, granted + lease.ttl)
    requires Harmless(t, ev, id, user, granted, granted + lease.ttl)
    ensures HoldsUntil(Step(t, lease, ev), id, user, granted + lease.ttl)
  {
    hide Count, Share;
  }

  ghost predicate HarmlessRun(t: LockTable, lease: LockLease, events: seq<LockEvent>, id: ObjectID, user: UserID,
                              granted: Time)
  {
    events == [] || (
      var front := events[..|events| - 1];
      && HarmlessRun(t, lease, front, id, user, granted)
      && Harmless(Run(t, lease, front), events[|events| - 1], id, user, granted, granted + lease.ttl))
  }

  lemma {:induction false} HarmlessRunKeepsLease(t: LockTable, lease: LockLease, events: seq<LockEvent>, id: ObjectID,
                                                 user: UserID, granted: Time)
    requires lease.ttl > 0 && HoldsUntil(t, id, user, granted + lease.ttl)
    requires HarmlessRun(t, lease, events, id, user, granted)
    ensures HoldsUntil(Run(t, lease, events), id, user, granted + lease.ttl)
  {
    if events != [] {
      var front := events[..|events| - 1];
      HarmlessRunKeepsLease(t, lease, front, id, user, granted);
      HarmlessKeepsLease(Run(t, lease, front), lease, events[|events| - 1], id, user, granted);
    }
  }

  /** The lease: an object granted to A at time g is A's at every time before g + TTL, through every run whose
      sweeps and acquires of it are stamped before g + TTL and whose renewals by A are not stamped before g,
      unless A releases it, its session ends or it is removed. */
  lemma LeaseGuarantee(t: LockTable, lease: LockLease, id: ObjectID, user: UserID, session: SessionID, granted: Time,
                       events: seq<LockEvent>, now: Time)
    requires lease.ttl > 0 && user != ""
    requires Acquire(t, lease, id, user, session, granted).result == Granted
    requires HarmlessRun(Acquire(t, lease, id, user, session, granted).table, lease, events, id, user, granted)
    requires now < granted + lease.ttl
    ensures var end := Run(Acquire(t, lease, id, user, session, granted).table, lease, events);
      id in end.objects && end.objects[id].lock.IsOwnedBy(user, now)
  {
    HarmlessRunKeepsLease(Acquire(t, lease, id, user, session, granted).table, lease, events, id, user, granted);
  }

  /** The event is an acquire, refresh or release by somebody else, or a sweep, before the lease lapses. */
  ghost predicate Foreign(ev: LockEvent, user: UserID, until: Time) {
    match ev
    case Sweep(at) => at < until
    case TryAcquire(_, u, _, at) => u != user && at < until
    case TryRefresh(_, u, at) => u != user && at < until
    case TryRelease(_, u, at) => u != user && at < until
    case _ => false
  }

  /** While a lease runs, no run of other users' acquires, refreshes and releases changes the object at all. */
  lemma {:induction false} OthersCannotTouch(t: LockTable, lease: LockLease, events: seq<LockEvent>, id: ObjectID)
    requires id in t.objects && t.objects[id].lock.lockedBy != ""
    requires forall i :: 0 <= i < |events| ==> Foreign(events[i], t.objects[id].lock.lockedBy, t.objects[id].lock.until)
    ensures id in Run(t, lease, events).objects && Run(t, lease, events).objects[id] == t.objects[id]
  {
    if events != [] {
      var front := events[..|events| - 1];
      OthersCannotTouch(t, lease, front, id);
      hide Step, Foreign;
      ForeignKeeps(Run(t, lease, front), lease, events[|events| - 1], id);
    }
  }

  lemma ForeignKeeps(t: LockTable, lease: LockLease, ev: LockEvent, id: ObjectID)
    requires id in t.objects && t.objects[id].lock.lockedBy != ""
    requires Foreign(ev, t.objects[id].lock.lockedBy, t.objects[id].lock.until)
    ensures id in Step(t, lease, ev).objects && Step(t, lease, ev).objects[id] == t.objects[id]
  {
    hide Count, Share;
  }

  /** Everything that can cut a lease short of `deadline`: a sweep or a foreign grant after the recorded
      expiry, the owner's own release or early-stamped renewal, the end of its session, removal. */
  ghost predicate CutsShort(t: LockTable, lease: LockLease, ev: LockEvent, id: ObjectID, user: UserID, deadline: Time)
    requires id in t.objects
  {
    var o := t.objects[id];
    match ev
    case Sweep(at) => o.lock.until <= at
    case TryAcquire(x, u, _, at) =>
      && x == id && o.active
      && (if o.lock.until > at then u == user && at + lease.ttl < deadline
          else Count(t.counts, u) < lease.maxLocksPerUser && !(u == user && at + lease.ttl >= deadline))
    case TryRefresh(x, u, at) => x == id && u == user && o.lock.until > at && at + lease.ttl < deadline
    case TryRelease(x, u, at) => x == id && u == user && o.lock.until > at
    case SessionEnd(s) => o.lock.session == s
    case RemoveObject(x) => x == id
    case _ => false
  }

  /** A step keeps the object with its owner up to `deadline` if and only if it is none of these. */
  lemma LeaseCutExactly(t: LockTable, lease: LockLease, ev: LockEvent, id: ObjectID, user: UserID, deadline: Time)
    requires HoldsUntil(t, id, user, deadline)
    ensures HoldsUntil(Step(t, lease, ev), id, user, deadline) <==> !CutsShort(t, lease, ev, id, user, deadline)
  {
    hide Share;
  }

  /** An owner's renewal with an early stamp does cut its lease: granted at 10, renewed with a stamp of 0,
      the object is swept at 0 + TTL although the grant ran to 10 + TTL. */
  lemma EarlyRenewalCutsLease(lease: LockLease, o: ObjectID, user: UserID, session: SessionID, at: ObjectTransform)
    requires lease.ttl > 0 && lease.maxLocksPerUser > 0 && user != ""
    ensures var run := [CreateObject(o, "", at), TryAcquire(o, user, session, 10),
                        TryRefresh(o, user, 0), Sweep(lease.ttl)];
      && HoldsUntil(Run(EMPTY_TABLE, lease, run[..2]), o, user, 10 + lease.ttl)
      && !HoldsUntil(Run(EMPTY_TABLE, lease, run), o, user, 10 + lease.ttl)
  {
    var run := [CreateObject(o, "", at), TryAcquire(o, user, session, 10), TryRefresh(o, user, 0), Sweep(lease.ttl)];
    RunPrefix(EMPTY_TABLE, lease, run, 0);
    RunPrefix(EMPTY_TABLE, lease, run, 1);
    RunPrefix(EMPTY_TABLE, lease, run, 2);
    RunPrefix(EMPTY_TABLE, lease, run, 3);
    hide Run, Share;
    GrantThenRenew(Run(EMPTY_TABLE, lease, run[..1]), lease, o, user, session);
    hide Step;
    SweptIfLapsed(Run(EMPTY_TABLE, lease, run[..3]), lease, o, user, lease.ttl, 10 + lease.ttl);
  }

  lemma GrantThenRenew(t: LockTable, lease: LockLease, o: ObjectID, user: UserID, session: SessionID)
    requires o in t.objects && t == Create(EMPTY_TABLE, o, "", t.objects[o].transform) && lease.ttl > 0
    requires lease.maxLocksPerUser > 0 && user != ""
    ensures var granted := Step(t, lease, TryAcquire(o, user, session, 10));
      var renewed := Step(granted, lease, TryRefresh(o, user, 0));
      && HoldsUntil(granted, o, user, 10 + lease.ttl)
      && HoldsUntil(renewed, o, user, lease.ttl) && renewed.objects[o].lock.until == lease.ttl
  {
  }

  lemma SweptIfLapsed(t: LockTable, lease: LockLease, o: ObjectID, user: UserID, now: Time, deadline: Time)
    requires o in t.objects && user != "" && t.objects[o].lock.lockedBy == user && t.objects[o].lock.until <= now
    ensures !HoldsUntil(Step(t, lease, Sweep(now)), o, user, deadline)
  {
    hide CountsWithout;
  }

  // ----- Departed sessions -------------------------------------------------------

  lemma StepKeepsSessionFree(t: LockTable, lease: LockLease, ev: LockEvent, session: SessionID)
    requires OfSession(t.objects, session) == {}
    requires ev.TryAcquire? ==> ev.session != session
    ensures OfSession(Step(t, lease, ev).objects, session) == {}
  {
    hide Share, Count;
    forall id | id in Step(t, lease, ev).objects
      ensures id !in OfSession(Step(t, lease, ev).objects, session)
    {
      assert id in t.objects ==> id !in OfSession(t.objects, session);
    }
  }

  lemma EndFreesSession(t: LockTable, lease: LockLease, session: SessionID)
    ensures OfSession(Step(t, lease, SessionEnd(session)).objects, session) == {}
  {
    hide Share;
    forall id | id in t.objects
      ensures id !in OfSession(Step(t, lease, SessionEnd(session)).objects, session)
    {
      assert id in OfSession(t.objects, session) || id !in OfSession(t.objects, session);
    }
  }

  lemma {:induction false} RunKeepsSessionFree(t: LockTable, lease: LockLease, events: seq<LockEvent>,
                                               session: SessionID)
    requires OfSession(t.objects, session) == {}
    requires forall i :: 0 <= i < |events| && events[i].TryAcquire? ==> events[i].session != session
    ensures OfSession(Run(t, lease, events).objects, session) == {}
  {
    hide Step;
    if events != [] {
      var front := events[..|events| - 1];
      RunKeepsSessionFree(t, lease, front, session);
      StepKeepsSessionFree(Run(t, lease, front), lease, events[|events| - 1], session);
    }
  }

  /** Once a session has ended, nothing is locked under it until it acquires again. */
  lemma DepartedHoldNothing(t: LockTable, lease: LockLease, session: SessionID, events: seq<LockEvent>)
    requires forall i :: 0 <= i < |events| && events[i].TryAcquire? ==> events[i].session != session
    ensures OfSession(Run(Step(t, lease, SessionEnd(session)), lease, events).objects, session) == {}
  {
    hide Step;
    EndFreesSession(t, lease, session);
    RunKeepsSessionFree(Step(t, lease, SessionEnd(session)), lease, events, session);
  }

  // ----- Versions ----------------------------------------------------------------

  /** The step changes the object other than by refreshing its lease. */
  ghost predicate Alters(t: LockTable, lease: LockLease, ev: LockEvent, id: ObjectID) {
    && id in t.objects && id in Step(t, lease, ev).objects
    && Step(t, lease, ev).objects[id] != t.objects[id] && !ev.TryRefresh?
  }

  ghost function Alterations(t: LockTable, lease: LockLease, events: seq<LockEvent>, id: ObjectID): nat {
    if events == [] then 0
    else
      var front := events[..|events| - 1];
      Alterations(t, lease, front, id) + if Alters(Run(t, lease, front), lease, events[|events| - 1], id) then 1 else 0
  }

  /** Equal but for the expiry of the lease. */
  ghost predicate SameButExpiry(x: ObjectState, y: ObjectState) {
    x == y.(lock := y.lock.(until := x.lock.until))
  }

  lemma StepVersion(t: LockTable, lease: LockLease, ev: LockEvent, id: ObjectID)
    requires id in t.objects && !(ev.RemoveObject? && ev.id == id)
    ensures id in Step(t, lease, ev).objects
    ensures var before, after := t.objects[id], Step(t, lease, ev).objects[id];
      if Alters(t, lease, ev, id) then after.version == Succ32(before.version) else SameButExpiry(after, before)
  {
    hide Share, Count, Succ32;
  }

  lemma {:induction false} VersionCountsAlterations(t: LockTable, lease: LockLease, events: seq<LockEvent>,
                                                    id: ObjectID)
    requires id in t.objects && t.objects[id].version < UINT32 && RemoveObject(id) !in events
    ensures id in Run(t, lease, events).objects
    ensures var before, after, n := t.objects[id], Run(t, lease, events).objects[id], Alterations(t, lease, events, id);
      after.version == Add32(before.version, n) && (n == 0 ==> SameButExpiry(after, before))
  {
    hide Step, Alters, Add32, Succ32;
    Add32OneMore(t.objects[id].version, 0);
    if events != [] {
      var front := events[..|events| - 1];
      VersionCountsAlterations(t, lease, front, id);
      StepVersion(Run(t, lease, front), lease, events[|events| - 1], id);
      Add32OneMore(t.objects[id].version, Alterations(t, lease, front, id));
    }
  }

  /** Versions tell an object's changes: along every run that keeps the object and alters it fewer than 2^32
      times, the version is back at its old value if and only if nothing but the expiry was ever altered. */
  lemma VersionTracksChange(t: LockTable, lease: LockLease, events: seq<LockEvent>, id: ObjectID)
    requires id in t.objects && t.objects[id].version < UINT32
    requires RemoveObject(id) !in events
    requires Alterations(t, lease, events, id) < UINT32
    ensures id in Run(t, lease, events).objects
    ensures var before, after := t.objects[id], Run(t, lease, events).objects[id];
      && (after.version == before.version <==> Alterations(t, lease, events, id) == 0)
      && (after.version == before.version ==> SameButExpiry(after, before))
  {
    hide Run, Alterations, Add32;
    VersionCountsAlterations(t, lease, events, id);
    Add32Returns(t.objects[id].version, Alterations(t, lease, events, id));
  }
}
