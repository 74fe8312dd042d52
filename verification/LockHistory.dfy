// The lock table read off the events that led to it: who holds an object and until when, what the
// object contains, and how each request is answered.

module LockHistory {
  import opened Common
  import opened Locks
  import opened LockRuns

  // ----- Who holds an object -----------------------------------------------------

  /** A lease in force or lapsed but not yet swept. */
  datatype Holding = Holding(user: UserID, session: SessionID, until: Time)

  ghost predicate LiveAt(h: Option<Holding>, at: Time) {
    h.Some? && h.value.until > at
  }

  /** The user holds the object at that time. */
  ghost predicate HeldAt(h: Option<Holding>, user: UserID, at: Time) {
    LiveAt(h, at) && h.value.user == user
  }

  /** An acquire succeeds: the object is there and active, and either the user holds it already or
      nobody does and the user is below its limit. */
  ghost predicate Grants(h: Option<Holding>, c: Option<Content>, charged: int, limit: int, user: UserID, at: Time) {
    c.Some? && c.value.active && if LiveAt(h, at) then h.value.user == user else charged < limit
  }

  /** What one event makes of a holding. */
  ghost function HoldingAfter(h: Option<Holding>, c: Option<Content>, t: LockTable, lease: LockLease,
                              ev: LockEvent, id: ObjectID): Option<Holding>
  {
    match ev
    case Sweep(at) => if LiveAt(h, at) then h else None
    case TryAcquire(o, user, session, at) =>
      if o == id && Grants(h, c, Count(t.counts, user), lease.maxLocksPerUser, user, at)
      then (if user == "" then None else Some(Holding(user, session, at + lease.ttl)))
      else h
    case TryRefresh(o, user, at) =>
      if o == id && HeldAt(h, user, at) then Some(h.value.(until := at + lease.ttl)) else h
    case TryRelease(o, user, at) => if o == id && HeldAt(h, user, at) then None else h
    case SessionEnd(session) => if h.Some? && h.value.session == session then None else h
    case RemoveObject(o) => if o == id then None else h
    case _ => h
  }

  /** Who holds the object after the events. */
  ghost function HoldingOf(lease: LockLease, events: seq<LockEvent>, id: ObjectID): Option<Holding> {
    if events == [] then None
    else
      var front := events[..|events| - 1];
      HoldingAfter(HoldingOf(lease, front, id), ContentOf(front, id), Run(EMPTY_TABLE, lease, front), lease,
                   events[|events| - 1], id)
  }

  // ----- What an object contains -------------------------------------------------

  datatype Content = Content(kind: string, transform: ObjectTransform, customState: seq<int>, active: bool)

  /** What one event makes of an object's content. */
  ghost function ContentAfter(c: Option<Content>, ev: LockEvent, id: ObjectID): Option<Content> {
    match ev
    case CreateObject(o, kind, transform) =>
      if o == id && c.None? then Some(Content(kind, transform, [], true)) else c
    case UpdateTransform(o, transform) =>
      if o == id && c.Some? then Some(c.value.(transform := transform)) else c
    case UpdateState(o, state) => if o == id && c.Some? then Some(c.value.(customState := state)) else c
    case Deactivate(o) => if o == id && c.Some? then Some(c.value.(active := false)) else c
    case RemoveObject(o) => if o == id then None else c
    case _ => c
  }

  ghost function ContentOf(events: seq<LockEvent>, id: ObjectID): Option<Content> {
    if events == [] then None
    else ContentAfter(ContentOf(events[..|events| - 1], id), events[|events| - 1], id)
  }

  // ----- The table agrees --------------------------------------------------------

  ghost function HoldingIn(t: LockTable, id: ObjectID): Option<Holding> {
    if id !in t.objects || t.objects[id].lock.lockedBy == "" then None
    else Some(Holding(t.objects[id].lock.lockedBy, t.objects[id].lock.session, t.objects[id].lock.until))
  }

  ghost function ContentIn(t: LockTable, id: ObjectID): Option<Content> {
    if id !in t.objects then None
    else
      var o := t.objects[id];
      Some(Content(o.kind, o.transform, o.customState, o.active))
  }

  lemma HoldingStep(t: LockTable, lease: LockLease, ev: LockEvent, id: ObjectID)
    ensures HoldingIn(Step(t, lease, ev), id) == HoldingAfter(HoldingIn(t, id), ContentIn(t, id), t, lease, ev, id)
  {
    hide Count, Share;
  }

  lemma ContentStep(t: LockTable, lease: LockLease, ev: LockEvent, id: ObjectID)
    ensures ContentIn(Step(t, lease, ev), id) == ContentAfter(ContentIn(t, id), ev, id)
  {
    hide Count, Share;
  }

  /** In every run the table shows, for every object, exactly the holder, session and expiry of its last
      grant or renewal still in force, and the content it was created with and last given. */
  lemma {:induction false} TableFollowsHistory(lease: LockLease, events: seq<LockEvent>, id: ObjectID)
    ensures var t := Run(EMPTY_TABLE, lease, events);
      HoldingIn(t, id) == HoldingOf(lease, events, id) && ContentIn(t, id) == ContentOf(events, id)
  {
    if events != [] {
      var front, last := events[..|events| - 1], events[|events| - 1];
      TableFollowsHistory(lease, front, id);
      HoldingStep(Run(EMPTY_TABLE, lease, front), lease, last, id);
      ContentStep(Run(EMPTY_TABLE, lease, front), lease, last, id);
      hide Step, HoldingAfter, ContentAfter, HoldingIn, ContentIn;
    }
  }

  /** Along every run that creates an object and never removes it, its version is the number of times it was
      altered since, refreshes excepted, modulo 2^32. */
  lemma VersionFromCreation(lease: LockLease, before: seq<LockEvent>, id: ObjectID, kind: string,
                            transform: ObjectTransform, events: seq<LockEvent>)
    requires ContentOf(before, id).None? && RemoveObject(id) !in events
    ensures var t := Step(Run(EMPTY_TABLE, lease, before), lease, CreateObject(id, kind, transform));
      && id in Run(t, lease, events).objects
      && Run(t, lease, events).objects[id].version == Add32(0, Alterations(t, lease, events, id))
  {
    TableFollowsHistory(lease, before, id);
    var t := Step(Run(EMPTY_TABLE, lease, before), lease, CreateObject(id, kind, transform));
    assert id in t.objects && t.objects[id].version == 0;
    hide Run, Step, Alterations;
    VersionCountsAlterations(t, lease, events, id);
  }

  // ----- Answers -----------------------------------------------------------------

  /** In every run a request is answered from the history alone: an acquire by a named user by what it
      holds plus the leaks charged to it, a refresh or release by whether the user holds the object. */
  lemma AnswersFollowHistory(lease: LockLease, events: seq<LockEvent>, id: ObjectID, user: UserID,
                             session: SessionID, at: Time)
    requires user != ""
    ensures var t := Run(EMPTY_TABLE, lease, events);
      var h, c := HoldingOf(lease, events, id), ContentOf(events, id);
      var charged := |HeldBy(t.objects, user)| + LeaksIn(lease, events, user);
      && Acquire(t, lease, id, user, session, at).result ==
         (if c.None? then Rejected(NotFound)
          else if !c.value.active then Rejected(Inactive)
          else if LiveAt(h, at) && h.value.user != user then Rejected(LockedByOther)
          else if !LiveAt(h, at) && charged >= lease.maxLocksPerUser then Rejected(AtLimit)
          else Granted)
      && Refresh(t, lease, id, user, at).result == Release(t, id, user, at).result ==
         (if c.None? then Rejected(NotFound) else if HeldAt(h, user, at) then Granted else Rejected(NotOwner))
  {
    TableFollowsHistory(lease, events, id);
    CountsAccounted(lease, events, user);
    hide Run, LeaksIn, HoldingOf, ContentOf, HeldBy;
  }

  /** With timely stamps nobody is ever charged a leak, so the limit is on what the user really holds. */
  lemma TimelyRunsLeakNothing(lease: LockLease, events: seq<LockEvent>, initial: Time, user: UserID)
    requires user != "" && Timely(EMPTY_TABLE, lease, events, initial)
    ensures LeaksIn(lease, events, user) == 0
  {
    TimelyRunsCountExactly(lease, events, initial);
    CountsAccounted(lease, events, user);
    hide Run, LeaksIn, Timely, HeldBy;
  }

  // ----- Renewal -----------------------------------------------------------------

  /** A renewal at r keeps the object its owner's at every time before r + TTL, through every run whose
      sweeps and acquires of it are stamped before r + TTL and whose renewals by the owner are not stamped
      before r, unless the owner releases it, its session ends or it is removed. */
  lemma RenewalGuarantee(t: LockTable, lease: LockLease, id: ObjectID, user: UserID, renewed: Time,
                         events: seq<LockEvent>, now: Time)
    requires lease.ttl > 0 && Refresh(t, lease, id, user, renewed).result == Granted
    requires HarmlessRun(Refresh(t, lease, id, user, renewed).table, lease, events, id, user, renewed)
    requires now < renewed + lease.ttl
    ensures var end := Run(Refresh(t, lease, id, user, renewed).table, lease, events);
      id in end.objects && end.objects[id].lock.IsOwnedBy(user, now)
  {
    HarmlessRunKeepsLease(Refresh(t, lease, id, user, renewed).table, lease, events, id, user, renewed);
  }
}
