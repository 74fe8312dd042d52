// The room read off the actions that led to it: who is in it and where, who is attached, what waits to be
// sent, and what its objects contain and who holds them. Each history is computed from the actions and the
// guards of the commands, and the room's tables are proved to agree with it after every run.

module RoomHistory {
  import opened Common
  import opened Geometry
  import opened KMeans
  import opened Locks
  import LockRuns
  import opened LockHistory
  import opened Players
  import opened Delta
  import opened RoomModel
  import opened RoomInvariants

  // ----- Players -----------------------------------------------------------------

  /** A player since its last join: where it was last put, at which tick, and how often it was moved. */
  datatype Life = Life(position: Vec3, rotation: Quat, tick: nat, moves: nat)

  const SPAWNED := Life(Vec3(0.0, 0.0, 0.0), Quat(0.0, 0.0, 0.0, 1.0), 0, 0)

  ghost function MovedOn(life: Option<Life>, to: PlayerTransform, tick: nat): Option<Life> {
    if life.None? then None else Some(Life(to.position, to.rotation, tick, life.value.moves + 1))
  }

  /** What one action makes of a player. */
  ghost function LifeAfter(life: Option<Life>, s: RoomState, a: Action, p: PlayerID): Option<Life> {
    match a
    case Handle(Join(_, q, user)) => if q == p && (user == "" || user !in s.users) then Some(SPAWNED) else life
    case Handle(Leave(x, q)) => if q == p && x in s.sessions then None else life
    case Handle(Disconnect(x)) => if x in s.sessions && s.sessions[x].player == p then None else life
    case Handle(PlayerInput(q, to, time)) =>
      if q == p && to.rotation != Quat(0.0, 0.0, 0.0, 0.0) && time > 0 then MovedOn(life, to, s.tick) else life
    case Handle(UpdatePlayerTransform(q, to)) => if q == p then MovedOn(life, to, s.tick) else life
    case _ => life
  }

  ghost function LifeOf(cfg: RoomConfig, acts: seq<Action>, p: PlayerID): Option<Life> {
    if acts == [] then None
    else LifeAfter(LifeOf(cfg, acts[..|acts| - 1], p), After(cfg, acts[..|acts| - 1]), acts[|acts| - 1], p)
  }

  /** The player table shows this life. */
  ghost predicate Shows(players: map<PlayerID, PlayerView>, p: PlayerID, life: Option<Life>) {
    && (p in players <==> life.Some?)
    && (p in players ==>
          && players[p].transform.position == life.value.position
          && players[p].transform.rotation == life.value.rotation
          && players[p].transform.tick == life.value.tick
          && players[p].version == life.value.moves % UINT32)
  }

  lemma ShowsStep(s: RoomState, cfg: RoomConfig, a: Action, p: PlayerID, life: Option<Life>)
    requires Shows(s.players, p, life)
    ensures Shows(Next(s, cfg, a).players, p, LifeAfter(life, s, a, p))
  {
    hide LockRuns.Run, LockEventsOf, Finished;
    match a
    case FinishTick(order, sorted) => FinishKeeps(s, cfg, order, sorted);
    case Handle(PlayerInput(q, to, time)) => if ValidInput(to, time) { MovedShows(s, q, to, p, life); }
    case Handle(UpdatePlayerTransform(q, to)) => MovedShows(s, q, to, p, life);
    case _ =>
  }

  lemma MovedShows(s: RoomState, q: PlayerID, to: PlayerTransform, p: PlayerID, life: Option<Life>)
    requires Shows(s.players, p, life)
    ensures Shows(Moved(s, q, to).players, p, if q == p then MovedOn(life, to, s.tick) else life)
  {
    hide SqDist;
  }

  /** After every run, a player is in the room exactly when it has joined and not been removed since; it has
      the position and rotation of its last effective movement command since then (or the spawn transform),
      the tick at which that command was handled, and as version the number of those commands, modulo 2^32. */
  lemma {:induction false} PlayersFollowHistory(cfg: RoomConfig, acts: seq<Action>, p: PlayerID)
    ensures Shows(After(cfg, acts).players, p, LifeOf(cfg, acts, p))
  {
    if acts != [] {
      var front := acts[..|acts| - 1];
      PlayersFollowHistory(cfg, front, p);
      ShowsStep(After(cfg, front), cfg, acts[|acts| - 1], p, LifeOf(cfg, front, p));
      hide Next, LifeAfter, Shows;
    }
  }

  ghost function TicksBegun(acts: seq<Action>): nat {
    if acts == [] then 0 else TicksBegun(acts[..|acts| - 1]) + if acts[|acts| - 1].BeginTick? then 1 else 0
  }

  /** The tick counter is the number of ticks begun, modulo 2^32. */
  lemma {:induction false} TickIsCount(cfg: RoomConfig, acts: seq<Action>)
    ensures After(cfg, acts).tick == Add32(0, TicksBegun(acts))
  {
    hide Add32, Succ32, Next;
    Add32OneMore(0, 0);
    if acts != [] {
      var front, last := acts[..|acts| - 1], acts[|acts| - 1];
      TickIsCount(cfg, front);
      TickStep(After(cfg, front), cfg, last);
      Add32OneMore(0, TicksBegun(front));
    }
  }

  lemma TickStep(s: RoomState, cfg: RoomConfig, a: Action)
    ensures Next(s, cfg, a).tick == if a.BeginTick? then Succ32(s.tick) else s.tick
  {
    hide LockRuns.Run, LockEventsOf, Finished, SqDist;
    if a.FinishTick? {
      FinishKeeps(s, cfg, a.order, a.sorted);
    }
  }

  // ----- Sessions ----------------------------------------------------------------

  /** What one action makes of a session's attachment. */
  ghost function SeatAfter(seat: Option<Attachment>, s: RoomState, a: Action, x: SessionID): Option<Attachment> {
    match a
    case Handle(Join(y, p, user)) =>
      if y == x && (user == "" || user !in s.users) then Some(Attachment(p, user)) else seat
    case Handle(Leave(y, _)) => if y == x then None else seat
    case Handle(Disconnect(y)) => if y == x then None else seat
    case _ => seat
  }

  ghost function SeatOf(cfg: RoomConfig, acts: seq<Action>, x: SessionID): Option<Attachment> {
    if acts == [] then None
    else SeatAfter(SeatOf(cfg, acts[..|acts| - 1], x), After(cfg, acts[..|acts| - 1]), acts[|acts| - 1], x)
  }

  ghost function SeatIn(s: RoomState, x: SessionID): Option<Attachment> {
    if x in s.sessions then Some(s.sessions[x]) else None
  }

  lemma SeatStep(s: RoomState, cfg: RoomConfig, a: Action, x: SessionID)
    ensures SeatIn(Next(s, cfg, a), x) == SeatAfter(SeatIn(s, x), s, a, x)
  {
    hide LockRuns.Run, LockEventsOf, Finished, SqDist;
    if !ChangesSessions(a) {
      OthersKeepSessions(s, cfg, a);
    }
  }

  /** After every run, a session is attached exactly as its last accepted join says, until it leaves or
      disconnects. */
  lemma {:induction false} SessionsFollowHistory(cfg: RoomConfig, acts: seq<Action>, x: SessionID)
    ensures SeatIn(After(cfg, acts), x) == SeatOf(cfg, acts, x)
  {
    if acts != [] {
      var front := acts[..|acts| - 1];
      SessionsFollowHistory(cfg, front, x);
      SeatStep(After(cfg, front), cfg, acts[|acts| - 1], x);
      hide Next, SeatAfter, SeatIn;
    }
  }

  ghost predicate UserAttached(s: RoomState, user: UserID) {
    exists x :: x in s.sessions && s.sessions[x].user == user
  }

  /** In every run that stranded nobody, a join is accepted if and only if its user is anonymous or not
      attached; accepted, it seats the session and puts its player at the spawn point at version 0; refused,
      it changes nothing. */
  lemma JoinAnswered(cfg: RoomConfig, acts: seq<Action>, x: SessionID, p: PlayerID, user: UserID)
    requires !EverStrands(cfg, acts)
    ensures var s, t := After(cfg, acts), After(cfg, acts + [Handle(Join(x, p, user))]);
      if user == "" || !UserAttached(s, user) then
        && t.sessions == s.sessions[x := Attachment(p, user)] && t.playerCount == s.playerCount + 1
        && p in t.players && t.players[p] == PlayerView(SPAWN, 0) && p in t.indexed && x in t.snapshots
      else t == s
  {
    var s := After(cfg, acts);
    IndexIsBijection(cfg, acts);
    AppendAction(cfg, acts, Handle(Join(x, p, user)));
    assert LockRuns.Run(s.locks, cfg.lease, []) == s.locks;
    hide After, EverStrands, LockRuns.Run;
    if user != "" && user in s.users {
      assert s.users[user] in s.sessions && s.sessions[s.users[user]].user == user;
    }
  }

  // ----- What waits to be sent ---------------------------------------------------

  /** What one action makes of a player's dirty mark. */
  ghost predicate DirtyAfter(dirty: bool, s: RoomState, cfg: RoomConfig, a: Action, p: PlayerID) {
    match a
    case Handle(Leave(x, q)) => dirty && !(q == p && x in s.sessions)
    case Handle(Disconnect(x)) => dirty && !(x in s.sessions && s.sessions[x].player == p)
    case Handle(PlayerInput(q, to, time)) =>
      dirty || (q == p && p in s.players && to.rotation != Quat(0.0, 0.0, 0.0, 0.0) && time > 0)
    case Handle(UpdatePlayerTransform(q, to)) => dirty || (q == p && p in s.players)
    case FinishTick(_, _) => dirty && !IsBroadcastTick(cfg, s.tick)
    case _ => dirty
  }

  ghost predicate DirtySince(cfg: RoomConfig, acts: seq<Action>, p: PlayerID) {
    acts != [] && (
      var front, last := acts[..|acts| - 1], acts[|acts| - 1];
      DirtyAfter(DirtySince(cfg, front, p), After(cfg, front), cfg, last, p))
  }

  lemma DirtyStep(s: RoomState, cfg: RoomConfig, a: Action, p: PlayerID)
    ensures p in Next(s, cfg, a).dirty <==> DirtyAfter(p in s.dirty, s, cfg, a, p)
  {
    hide LockRuns.Run, LockEventsOf, SqDist, Clustered, IsBroadcastTick;
    if a.FinishTick? {
      ClusteredKeeps(s, cfg.cluster, a.order, a.sorted);
    }
  }

  /** After every run the dirty players are exactly those moved since the last broadcast and not removed
      since. */
  lemma {:induction false} DirtyFollowsHistory(cfg: RoomConfig, acts: seq<Action>, p: PlayerID)
    ensures p in After(cfg, acts).dirty <==> DirtySince(cfg, acts, p)
  {
    if acts != [] {
      var front := acts[..|acts| - 1];
      DirtyFollowsHistory(cfg, front, p);
      DirtyStep(After(cfg, front), cfg, acts[|acts| - 1], p);
      hide Next, DirtyAfter;
    }
  }

  // ----- Objects -----------------------------------------------------------------

  /** What one action makes of the holding of an object. */
  ghost function RoomHoldingAfter(h: Option<Holding>, s: RoomState, cfg: RoomConfig, a: Action,
                                  o: ObjectID): Option<Holding>
  {
    match a
    case BeginTick(now) => if LiveAt(h, now) then h else None
    case Handle(ObjectLockAcquire(x, user, session, at)) =>
      if x == o && Grants(h, ContentIn(s.locks, o), Count(s.locks.counts, user), cfg.lease.maxLocksPerUser, user, at)
      then (if user == "" then None else Some(Holding(user, session, at + cfg.lease.ttl)))
      else h
    case Handle(ObjectLockRefresh(x, user, at)) =>
      if x == o && HeldAt(h, user, at) then Some(h.value.(until := at + cfg.lease.ttl)) else h
    case Handle(ObjectLockRelease(x, user, at)) => if x == o && HeldAt(h, user, at) then None else h
    case Handle(Leave(session, _)) => if h.Some? && h.value.session == session then None else h
    case Handle(Disconnect(session)) => if h.Some? && h.value.session == session then None else h
    case _ => h
  }

  ghost function RoomHoldingOf(cfg: RoomConfig, acts: seq<Action>, o: ObjectID): Option<Holding> {
    if acts == [] then None
    else
      var front := acts[..|acts| - 1];
      RoomHoldingAfter(RoomHoldingOf(cfg, front, o), After(cfg, front), cfg, acts[|acts| - 1], o)
  }

  /** What one action makes of the content of an object. */
  ghost function RoomContentAfter(c: Option<Content>, a: Action, o: ObjectID): Option<Content> {
    match a
    case MakeObject(x, kind, placed) => if x == o && c.None? then Some(Content(kind, placed, [], true)) else c
    case Handle(ObjectUpdate(x, placed, state)) =>
      if x != o || c.None? then c
      else
        Some(c.value.(transform := if placed.Some? then placed.value else c.value.transform,
                      customState := if state.Some? then state.value else c.value.customState))
    case _ => c
  }

  ghost function RoomContentOf(acts: seq<Action>, o: ObjectID): Option<Content> {
    if acts == [] then None else RoomContentAfter(RoomContentOf(acts[..|acts| - 1], o), acts[|acts| - 1], o)
  }

  // One or two lock events, one after the other.
  lemma RunOfFew(t: LockTable, lease: LockLease, evs: seq<LockRuns.LockEvent>)
    ensures |evs| == 0 ==> LockRuns.Run(t, lease, evs) == t
    ensures |evs| == 1 ==> LockRuns.Run(t, lease, evs) == LockRuns.Step(t, lease, evs[0])
    ensures |evs| == 2 ==>
      LockRuns.Run(t, lease, evs) == LockRuns.Step(LockRuns.Step(t, lease, evs[0]), lease, evs[1])
  {
    hide LockRuns.Step;
    if |evs| > 0 {
      LockRuns.RunPrefix(t, lease, evs, 0);
      LockRuns.RunPrefix(t, lease, evs, |evs| - 1);
    }
  }

  lemma ObjectStep(s: RoomState, cfg: RoomConfig, a: Action, o: ObjectID)
    ensures var t := Next(s, cfg, a).locks;
      && HoldingIn(t, o) == RoomHoldingAfter(HoldingIn(s.locks, o), s, cfg, a, o)
      && ContentIn(t, o) == RoomContentAfter(ContentIn(s.locks, o), a, o)
  {
    hide Next, LockRuns.Step, HoldingIn, ContentIn, LockRuns.Run;
    NextLocks(s, cfg, a);
    var evs := LockEvents(a);
    RunOfFew(s.locks, cfg.lease, evs);
    if |evs| > 0 {
      HoldingStep(s.locks, cfg.lease, evs[0], o);
      ContentStep(s.locks, cfg.lease, evs[0], o);
    }
    if |evs| > 1 {
      var mid := LockRuns.Step(s.locks, cfg.lease, evs[0]);
      HoldingStep(mid, cfg.lease, evs[1], o);
      ContentStep(mid, cfg.lease, evs[1], o);
    }
  }

  /** After every run of a room, every object is held as its commands, departures and sweeps say, and
      contains what it was created with and last given. */
  lemma {:induction false} ObjectsFollowHistory(cfg: RoomConfig, acts: seq<Action>, o: ObjectID)
    ensures var t := After(cfg, acts).locks;
      HoldingIn(t, o) == RoomHoldingOf(cfg, acts, o) && ContentIn(t, o) == RoomContentOf(acts, o)
  {
    if acts != [] {
      var front := acts[..|acts| - 1];
      ObjectsFollowHistory(cfg, front, o);
      ObjectStep(After(cfg, front), cfg, acts[|acts| - 1], o);
      hide Next, RoomHoldingAfter, RoomContentAfter, HoldingIn, ContentIn;
    }
  }

  /** The session acquires something. */
  ghost predicate AcquiresUnder(a: Action, x: SessionID) {
    a.Handle? && a.cmd.ObjectLockAcquire? && a.cmd.session == x
  }

  lemma KeepsSessionFree(s: RoomState, cfg: RoomConfig, a: Action, x: SessionID)
    requires OfSession(s.locks.objects, x) == {} && !AcquiresUnder(a, x)
    ensures OfSession(Next(s, cfg, a).locks.objects, x) == {}
  {
    hide Next, LockRuns.Run, OfSession;
    NextLocks(s, cfg, a);
    LockRuns.RunKeepsSessionFree(s.locks, cfg.lease, LockEvents(a), x);
  }

  lemma DepartureFrees(s: RoomState, cfg: RoomConfig, a: Action, x: SessionID)
    requires a.Handle? && (a.cmd.Leave? || a.cmd.Disconnect?) && a.cmd.session == x
    ensures OfSession(Next(s, cfg, a).locks.objects, x) == {}
  {
    hide Next;
    var t := Next(s, cfg, a).locks;
    forall o | o in t.objects
      ensures o !in OfSession(t.objects, x)
    {
      ObjectStep(s, cfg, a, o);
    }
  }

  /** After a leave or disconnect of a session nothing is locked under it, in every continuation in which it
      does not acquire again. */
  lemma {:induction false} DepartedSessionHoldsNothing(cfg: RoomConfig, acts: seq<Action>, a: Action,
                                                       more: seq<Action>, x: SessionID)
    requires a.Handle? && (a.cmd.Leave? || a.cmd.Disconnect?) && a.cmd.session == x
    requires forall i :: 0 <= i < |more| ==> !AcquiresUnder(more[i], x)
    ensures OfSession(After(cfg, acts + [a] + more).locks.objects, x) == {}
    decreases |more|
  {
    hide After, Next, OfSession, AcquiresUnder;
    if more == [] {
      AppendAction(cfg, acts, a);
      DepartureFrees(After(cfg, acts), cfg, a, x);
      assert acts + [a] + more == acts + [a];
    } else {
      var front, last := more[..|more| - 1], more[|more| - 1];
      DepartedSessionHoldsNothing(cfg, acts, a, front, x);
      AppendAction(cfg, acts + [a] + front, last);
      assert acts + [a] + more == acts + [a] + front + [last];
      KeepsSessionFree(After(cfg, acts + [a] + front), cfg, last, x);
    }
  }

  /** The lease in a room, renewed: an object whose owner's refresh at r is answered with a grant stays the
      owner's at every time before r + TTL, through the continuations a granted lease survives. */
  lemma RoomRenewalGuarantee(cfg: RoomConfig, acts: seq<Action>, more: seq<Action>,
                             o: ObjectID, user: UserID, renewed: Time, now: Time)
    requires cfg.lease.ttl > 0
    requires HeldAt(RoomHoldingOf(cfg, acts, o), user, renewed)
    requires RespectfulRun(cfg, acts + [Handle(ObjectLockRefresh(o, user, renewed))], more, o, user, renewed)
    requires now < renewed + cfg.lease.ttl
    ensures var t := After(cfg, acts + [Handle(ObjectLockRefresh(o, user, renewed))] + more).locks;
      o in t.objects && t.objects[o].lock.IsOwnedBy(user, now)
  {
    var a := Handle(ObjectLockRefresh(o, user, renewed));
    ObjectsFollowHistory(cfg, acts, o);
    AppendAction(cfg, acts, a);
    ObjectStep(After(cfg, acts), cfg, a, o);
    hide After, Next, RespectfulRun, RoomHoldingOf, RoomContentOf;
    RespectfulRunKeepsLease(cfg, acts + [a], more, o, user, renewed);
  }

  // ----- What the allocator remembers --------------------------------------------

  lemma RemembersStep(s: RoomState, cfg: RoomConfig, a: Action)
    requires s.previous == Some(s.cluster) || (s.previous == None && s.cluster == EMPTY_OUTPUT)
    ensures var t := Next(s, cfg, a);
      t.previous == Some(t.cluster) || (t.previous == None && t.cluster == EMPTY_OUTPUT)
  {
    hide LockRuns.Run, LockEventsOf, WithoutLocks, Clustering, PossibleOrder, ShouldRecompute, Broadcast;
    match a
    case Handle(cmd) => CommandKeepsClusters(s, cmd);
    case FinishTick(order, sorted) => BroadcastKeeps(Clustered(s, cfg.cluster, order, sorted), cfg);
    case _ =>
  }

  /** Hysteresis always compares with what the room last showed: the allocator's previous output is the
      room's current clusters, or there were none yet. */
  lemma {:induction false} AllocatorRemembersClusters(cfg: RoomConfig, acts: seq<Action>)
    ensures var s := After(cfg, acts);
      s.previous == Some(s.cluster) || (s.previous == None && s.cluster == EMPTY_OUTPUT)
  {
    if acts != [] {
      var front := acts[..|acts| - 1];
      AllocatorRemembersClusters(cfg, front);
      RemembersStep(After(cfg, front), cfg, acts[|acts| - 1]);
      hide Next;
    }
  }
}
