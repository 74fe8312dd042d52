// What every sequence of actions keeps, well-formed or not: the linked tables of
// the room agree, a user is attached once, and the player counter is accounted for.

module RoomInvariants {
  import opened Common
  import opened Geometry
  import opened KMeans
  import opened KMeansOrder
  import opened Locks
  import LockRuns
  import opened SpatialHash
  import opened Players
  import opened Delta
  import opened RoomModel

  lemma ClusteredKeeps(s: RoomState, cfg: ClusterConfig, order: seq<PlayerID>, sorted: seq<ClusterPlayer>)
    ensures var c := Clustered(s, cfg, order, sorted);
      c == s.(cluster := c.cluster, previous := c.previous, lastClusterTick := c.lastClusterTick,
              maxMoveSq := c.maxMoveSq, membershipDirty := c.membershipDirty)
  {
    hide Clustering, ShouldRecompute, ValidPlayers;
  }

  lemma BroadcastKeeps(s: RoomState, cfg: RoomConfig)
    ensures var b := Broadcast(s, cfg);
      b == s.(snapshots := b.snapshots, dirty := b.dirty)
  {
    hide Visible, SnapshotAfter;
  }

  /** Clustering and broadcasting change neither who is in the room nor where. */
  lemma FinishKeeps(s: RoomState, cfg: RoomConfig, order: seq<PlayerID>, sorted: seq<ClusterPlayer>)
    ensures var f := Finished(s, cfg, order, sorted);
      && f.sessions == s.sessions && f.users == s.users && f.playerCount == s.playerCount
      && f.players == s.players && f.indexed == s.indexed && f.locks == s.locks && f.tick == s.tick
  {
    hide Clustered, Broadcast, IsBroadcastTick;
    ClusteredKeeps(s, cfg.cluster, order, sorted);
    BroadcastKeeps(Clustered(s, cfg.cluster, order, sorted), cfg);
  }

  /** Commands leave the clusters, the allocator and the recorded tick alone. */
  lemma CommandKeepsClusters(s: RoomState, cmd: Command)
    ensures var t := WithoutLocks(s, cmd);
      t.cluster == s.cluster && t.previous == s.previous && t.lastClusterTick == s.lastClusterTick && t.tick == s.tick
  {
    hide SqDist;
  }

  /** Who sees whom depends on the players, the index and the clusters, up to the order of their members. */
  lemma SameSight(s: RoomState, t: RoomState, cfg: RoomConfig, p: PlayerID)
    requires s.players == t.players && s.indexed == t.indexed && SameOutput(s.cluster, t.cluster)
    ensures Visible(s, cfg, p) == Visible(t, cfg, p)
  {
    assert ClusterMates(s.cluster, p) == ClusterMates(t.cluster, p);
  }

  // ----- Linked tables -----------------------------------------------------------

  /** An attached user is indexed under its own session, so it is attached only once. */
  ghost predicate UsersIndexed(s: RoomState) {
    forall x :: x in s.sessions && s.sessions[x].user != ""
      ==> s.sessions[x].user in s.users && s.users[s.sessions[x].user] == x
  }

  ghost predicate Linked(s: RoomState) {
    && s.indexed.Keys == s.players.Keys
    && s.snapshots.Keys == s.sessions.Keys
    && s.dirty <= s.players.Keys
    && UsersIndexed(s)
    && TicksInRange(s)
  }

  lemma JoinedLinked(s: RoomState, session: SessionID, player: PlayerID, user: UserID)
    requires Linked(s)
    ensures Linked(Joined(s, session, player, user))
  {
  }

  lemma DetachedLinked(s: RoomState, session: SessionID, player: PlayerID)
    requires Linked(s) && session in s.sessions
    ensures Linked(Detached(s, session, player))
  {
  }

  lemma MovedLinked(s: RoomState, player: PlayerID, to: PlayerTransform)
    requires Linked(s)
    ensures Linked(Moved(s, player, to))
  {
  }

  lemma CommandLinked(s: RoomState, cmd: Command)
    requires Linked(s)
    ensures Linked(WithoutLocks(s, cmd))
  {
    hide Joined, Detached, Moved, Linked;
    match cmd
    case Join(session, player, user) => JoinedLinked(s, session, player, user);
    case Leave(session, player) => if session in s.sessions { DetachedLinked(s, session, player); }
    case Disconnect(session) => if session in s.sessions { DetachedLinked(s, session, s.sessions[session].player); }
    case PlayerInput(player, transform, _) => MovedLinked(s, player, transform);
    case UpdatePlayerTransform(player, transform) => MovedLinked(s, player, transform);
    case _ =>
  }

  lemma HandledLinked(s: RoomState, cfg: RoomConfig, cmd: Command)
    requires Linked(s)
    ensures Linked(Handled(s, cfg, cmd))
  {
    hide WithoutLocks, LockEventsOf, LockRuns.Run;
    CommandLinked(s, cmd);
  }

  lemma FinishedLinked(s: RoomState, cfg: RoomConfig, order: seq<PlayerID>, sorted: seq<ClusterPlayer>)
    requires Linked(s)
    ensures Linked(Finished(s, cfg, order, sorted))
  {
    hide Clustering, PossibleOrder, ShouldRecompute, Visible;
    var c := Clustered(s, cfg.cluster, order, sorted);
    assert Linked(c);
    assert Broadcast(c, cfg).snapshots.Keys == c.sessions.Keys;
  }

  lemma NextLinked(s: RoomState, cfg: RoomConfig, a: Action)
    requires Linked(s)
    ensures Linked(Next(s, cfg, a))
  {
    match a {
      case Handle(cmd) => HandledLinked(s, cfg, cmd);
      case FinishTick(order, sorted) => FinishedLinked(s, cfg, order, sorted);
      case _ =>
    }
    hide Handled, Finished;
  }

  /** For every sequence of actions: the spatial index and the player table have the same keys, snapshots
      belong exactly to attached sessions, dirty players are in the room, and no user is attached twice. */
  lemma {:induction false} TablesStayLinked(cfg: RoomConfig, acts: seq<Action>)
    ensures Linked(After(cfg, acts))
    ensures var s := After(cfg, acts);
      forall x, y :: x in s.sessions && y in s.sessions && s.sessions[x].user == s.sessions[y].user != "" ==> x == y
  {
    if acts != [] {
      TablesStayLinked(cfg, acts[..|acts| - 1]);
      NextLinked(After(cfg, acts[..|acts| - 1]), cfg, acts[|acts| - 1]);
      hide Next;
    }
  }

  // ----- The player counter ------------------------------------------------------

  /** The action is an accepted join onto a session that is still attached. */
  ghost predicate Overwrites(s: RoomState, a: Action) {
    a.Handle? && a.cmd.Join? && JoinAccepted(s, a.cmd.user) && a.cmd.session in s.sessions
  }

  ghost function OverwritesIn(cfg: RoomConfig, acts: seq<Action>): nat {
    if acts == [] then 0
    else
      var front := acts[..|acts| - 1];
      OverwritesIn(cfg, front) + if Overwrites(After(cfg, front), acts[|acts| - 1]) then 1 else 0
  }

  ghost predicate ChangesSessions(a: Action) {
    a.Handle? && (a.cmd.Join? || a.cmd.Leave? || a.cmd.Disconnect?)
  }

  lemma OthersKeepSessions(s: RoomState, cfg: RoomConfig, a: Action)
    requires !ChangesSessions(a)
    ensures var t := Next(s, cfg, a);
      t.sessions == s.sessions && t.users == s.users && t.playerCount == s.playerCount
  {
    hide LockEventsOf, LockRuns.Run, Finished, SqDist;
    if a.FinishTick? {
      FinishKeeps(s, cfg, a.order, a.sorted);
    }
  }

  lemma JoinCount(s: RoomState, session: SessionID, player: PlayerID, user: UserID)
    ensures var t := Joined(s, session, player, user);
      t.playerCount - |t.sessions|
      == s.playerCount - |s.sessions| + if JoinAccepted(s, user) && session in s.sessions then 1 else 0
  {
    var more := s.sessions[session := Attachment(player, user)];
    assert more.Keys == s.sessions.Keys + {session};
    assert |more| == |more.Keys| && |s.sessions| == |s.sessions.Keys|;
  }

  lemma DetachCount(s: RoomState, session: SessionID, player: PlayerID)
    requires session in s.sessions
    ensures var t := Detached(s, session, player);
      t.playerCount - |t.sessions| == s.playerCount - |s.sessions|
  {
    var less := s.sessions - {session};
    assert s.sessions.Keys == less.Keys + {session};
    assert |less| == |less.Keys| && |s.sessions| == |s.sessions.Keys|;
  }

  lemma CountStep(s: RoomState, cfg: RoomConfig, a: Action)
    ensures Next(s, cfg, a).playerCount - |Next(s, cfg, a).sessions|
         == s.playerCount - |s.sessions| + if Overwrites(s, a) then 1 else 0
  {
    hide LockEventsOf, LockRuns.Run, Finished, Joined, Detached, Moved;
    match a {
      case Handle(Join(session, player, user)) => JoinCount(s, session, player, user);
      case Handle(Leave(session, player)) => if session in s.sessions { DetachCount(s, session, player); }
      case Handle(Disconnect(session)) =>
        if session in s.sessions { DetachCount(s, session, s.sessions[session].player); }
      case _ => OthersKeepSessions(s, cfg, a);
    }
  }

  /** The counter exceeds the attached sessions by exactly the number of overwriting joins, so it is
      never too low, and it is exact if and only if no join reused an attached session. */
  lemma {:induction false} PlayerCountAccounted(cfg: RoomConfig, acts: seq<Action>)
    ensures After(cfg, acts).playerCount == |After(cfg, acts).sessions| + OverwritesIn(cfg, acts)
  {
    if acts != [] {
      var front := acts[..|acts| - 1];
      PlayerCountAccounted(cfg, front);
      CountStep(After(cfg, front), cfg, acts[|acts| - 1]);
      hide Next;
    }
  }

  // ----- The user index ----------------------------------------------------------

  /** The index lists exactly the attached, non-anonymous users. */
  ghost predicate IndexExact(s: RoomState) {
    && UsersIndexed(s)
    && forall u :: u in s.users ==> u != "" && s.users[u] in s.sessions && s.sessions[s.users[u]].user == u
  }

  /** The action is an accepted join onto a session attached to a named user. */
  ghost predicate Strands(s: RoomState, a: Action) {
    Overwrites(s, a) && s.sessions[a.cmd.session].user != ""
  }

  ghost predicate EverStrands(cfg: RoomConfig, acts: seq<Action>) {
    acts != [] && (EverStrands(cfg, acts[..|acts| - 1]) || Strands(After(cfg, acts[..|acts| - 1]), acts[|acts| - 1]))
  }

  /** The user is indexed but attached nowhere. */
  ghost predicate Stranded(s: RoomState, u: UserID) {
    u != "" && u in s.users && forall x :: x in s.sessions ==> s.sessions[x].user != u
  }

  lemma JoinKeepsIndex(s: RoomState, session: SessionID, player: PlayerID, user: UserID)
    requires IndexExact(s) && (session in s.sessions ==> s.sessions[session].user == "")
    ensures IndexExact(Joined(s, session, player, user))
  {
  }

  lemma DetachKeepsIndex(s: RoomState, session: SessionID, player: PlayerID)
    requires IndexExact(s) && session in s.sessions
    ensures IndexExact(Detached(s, session, player))
  {
  }

  lemma StrandedNotExact(s: RoomState, u: UserID)
    requires Stranded(s, u)
    ensures !IndexExact(s)
  {
  }

  lemma JoinStrands(s: RoomState, session: SessionID, player: PlayerID, user: UserID)
    requires UsersIndexed(s) && JoinAccepted(s, user) && session in s.sessions && s.sessions[session].user != ""
    ensures Stranded(Joined(s, session, player, user), s.sessions[session].user)
  {
    var lost := s.sessions[session].user;
    assert forall x :: x in s.sessions && s.sessions[x].user == lost ==> x == session;
  }

  /** From an exact index, a step keeps it exact if and only if it is no join onto a named user's session. */
  lemma IndexStep(s: RoomState, cfg: RoomConfig, a: Action)
    requires IndexExact(s)
    ensures IndexExact(Next(s, cfg, a)) <==> !Strands(s, a)
  {
    hide LockEventsOf, LockRuns.Run, Finished, Joined, Detached, Moved;
    match a {
      case Handle(Join(session, player, user)) =>
        if !JoinAccepted(s, user) {
          JoinRefused(s, session, player, user);
        } else if Strands(s, a) {
          JoinStrands(s, session, player, user);
          StrandedNotExact(Joined(s, session, player, user), s.sessions[session].user);
        } else {
          JoinKeepsIndex(s, session, player, user);
        }
      case Handle(Leave(session, player)) => if session in s.sessions { DetachKeepsIndex(s, session, player); }
      case Handle(Disconnect(session)) =>
        if session in s.sessions { DetachKeepsIndex(s, session, s.sessions[session].player); }
      case _ => OthersKeepSessions(s, cfg, a);
    }
  }

  lemma JoinRefused(s: RoomState, session: SessionID, player: PlayerID, user: UserID)
    requires !JoinAccepted(s, user)
    ensures Joined(s, session, player, user) == s
  {
  }

  // Nothing ever frees a stranded user: its joins are refused and no session of its can end.
  lemma StrandedForGood(s: RoomState, cfg: RoomConfig, a: Action, u: UserID)
    requires Stranded(s, u)
    ensures Stranded(Next(s, cfg, a), u)
  {
    hide LockEventsOf, LockRuns.Run, Finished, Moved;
    if !ChangesSessions(a) {
      OthersKeepSessions(s, cfg, a);
    }
  }

  lemma {:induction false} IndexFollows(cfg: RoomConfig, acts: seq<Action>)
    ensures !EverStrands(cfg, acts) ==> IndexExact(After(cfg, acts))
    ensures EverStrands(cfg, acts) ==> exists u :: Stranded(After(cfg, acts), u)
  {
    if acts != [] {
      var front, last := acts[..|acts| - 1], acts[|acts| - 1];
      var s := After(cfg, front);
      IndexFollows(cfg, front);
      TablesStayLinked(cfg, front);
      hide Next, IndexExact, Stranded;
      if EverStrands(cfg, front) {
        var u :| Stranded(s, u);
        StrandedForGood(s, cfg, last, u);
        assert Stranded(After(cfg, acts), u);
      } else if Strands(s, last) {
        OverwriteStrandsUser(s, cfg, last);
        assert Stranded(After(cfg, acts), s.sessions[last.cmd.session].user);
      } else {
        IndexStep(s, cfg, last);
      }
    }
  }

  /** An overwritten user keeps its index entry while attached nowhere. */
  lemma OverwriteStrandsUser(s: RoomState, cfg: RoomConfig, a: Action)
    requires UsersIndexed(s) && Strands(s, a)
    ensures Stranded(Next(s, cfg, a), s.sessions[a.cmd.session].user)
  {
    hide LockEventsOf, LockRuns.Run, Joined;
    JoinStrands(s, a.cmd.session, a.cmd.player, a.cmd.user);
  }

  /** After any run, users and attached non-anonymous sessions are in bijection if and only if no join was
      ever accepted onto a session attached to a named user; the damage is never undone. */
  lemma IndexIsBijection(cfg: RoomConfig, acts: seq<Action>)
    ensures IndexExact(After(cfg, acts)) <==> !EverStrands(cfg, acts)
  {
    IndexFollows(cfg, acts);
    hide IndexExact, Stranded, After;
    if EverStrands(cfg, acts) {
      var u :| Stranded(After(cfg, acts), u);
      StrandedNotExact(After(cfg, acts), u);
    }
  }

  /** A stranded user's joins are refused in every continuation of the run. */
  lemma {:induction false} StrandedStaysOut(cfg: RoomConfig, acts: seq<Action>, more: seq<Action>, u: UserID)
    requires Stranded(After(cfg, acts), u)
    ensures Stranded(After(cfg, acts + more), u) && !JoinAccepted(After(cfg, acts + more), u)
    decreases |more|
  {
    hide After, Next;
    if more == [] {
      assert acts + more == acts;
    } else {
      var front := more[..|more| - 1];
      StrandedStaysOut(cfg, acts, front, u);
      StrandedForGood(After(cfg, acts + front), cfg, more[|more| - 1], u);
      AppendAction(cfg, acts + front, more[|more| - 1]);
      assert acts + more == acts + front + [more[|more| - 1]];
    }
  }

  // ----- Indexed positions -------------------------------------------------------

  ghost predicate InBounds(pos: Pos) {
    var bound := DEFAULT_MAX_WORLD_COORD;
    -bound <= pos.x <= bound && -bound <= pos.z <= bound
  }

  /** The index shows every player inside the world, and where it is if it is there. */
  ghost predicate IndexCurrent(s: RoomState) {
    forall p :: p in s.players ==>
      && p in s.indexed && InBounds(s.indexed[p])
      && (InBounds(s.players[p].Ground()) ==> s.indexed[p] == s.players[p].Ground())
  }

  lemma MovedCurrent(s: RoomState, p: PlayerID, t: PlayerTransform)
    requires IndexCurrent(s)
    ensures IndexCurrent(Moved(s, p, t))
  {
    hide SqDist;
    assert p in s.players ==> s.players[p].Moved(t, s.tick).Ground() == Pos(t.position.x, t.position.z);
  }

  lemma IndexCurrentStep(s: RoomState, cfg: RoomConfig, a: Action)
    requires IndexCurrent(s)
    ensures IndexCurrent(Next(s, cfg, a))
  {
    hide LockEventsOf, Finished, Moved;
    match a
    case FinishTick(order, sorted) => FinishKeeps(s, cfg, order, sorted);
    case Handle(PlayerInput(p, t, time)) => if ValidInput(t, time) { MovedCurrent(s, p, t); }
    case Handle(UpdatePlayerTransform(p, t)) => MovedCurrent(s, p, t);
    case _ =>
  }

  lemma {:induction false} IndexStaysCurrent(cfg: RoomConfig, acts: seq<Action>)
    ensures IndexCurrent(After(cfg, acts))
  {
    if acts != [] {
      var front := acts[..|acts| - 1];
      IndexStaysCurrent(cfg, front);
      IndexCurrentStep(After(cfg, front), cfg, acts[|acts| - 1]);
      hide Next;
    }
  }

  /** After any run a player is indexed where it is if and only if it is inside the world. */
  lemma IndexFollowsPlayers(cfg: RoomConfig, acts: seq<Action>, p: PlayerID)
    requires p in After(cfg, acts).players
    ensures var s := After(cfg, acts);
      p in s.indexed && (s.indexed[p] == s.players[p].Ground() <==> InBounds(s.players[p].Ground()))
  {
    IndexStaysCurrent(cfg, acts);
    hide After;
  }

  /** In radius mode, after any run, one player sees another if and only if it is in the world itself and the
      other's indexed position is within the visual radius. Of two players in the world that is their
      distance, and they see each other or neither does. Sight is one-sided exactly when one of them has left
      the world and its last position inside it is within the other's radius. */
  lemma RadiusVisibility(cfg: RoomConfig, acts: seq<Action>, p: PlayerID, q: PlayerID)
    requires !cfg.cluster.enabled && cfg.visualRadiusM > 0.0 && p != q
    requires p in After(cfg, acts).players && q in After(cfg, acts).players
    ensures var s := After(cfg, acts);
      var a, b := s.players[p].Ground(), s.players[q].Ground();
      && p in s.indexed && q in s.indexed && p !in Visible(s, cfg, p)
      && (q in Visible(s, cfg, p) <==> InBounds(a) && SqDist(a, s.indexed[q]) <= Square(cfg.visualRadiusM))
      && (InBounds(a) && InBounds(b) ==> (q in Visible(s, cfg, p) <==> SqDist(a, b) <= Square(cfg.visualRadiusM)))
      && ((q in Visible(s, cfg, p) <==> p in Visible(s, cfg, q)) <==>
          !(|| (InBounds(a) && !InBounds(b) && SqDist(a, s.indexed[q]) <= Square(cfg.visualRadiusM))
            || (InBounds(b) && !InBounds(a) && SqDist(b, s.indexed[p]) <= Square(cfg.visualRadiusM))))
  {
    IndexStaysCurrent(cfg, acts);
    hide After;
    var s := After(cfg, acts);
    SqDistSymmetric(s.players[p].Ground(), s.players[q].Ground());
    hide SqDist, Square;
  }

  /** One-sided sight is reached: p and q join, p leaves the world; q still sees p where it joined, p sees nobody. */
  lemma OutsiderIsSeen(cfg: RoomConfig, x: SessionID, y: SessionID, p: PlayerID, q: PlayerID, out: PlayerTransform)
    requires !cfg.cluster.enabled && cfg.visualRadiusM > 0.0 && p != q && !InBounds(Pos(out.position.x, out.position.z))
    ensures var joins := [Handle(Join(x, p, ""))] + [Handle(Join(y, q, ""))];
      var s := After(cfg, joins + [Handle(UpdatePlayerTransform(p, out))]);
      p in s.players && q in s.players && p in Visible(s, cfg, q) && Visible(s, cfg, p) == {}
  {
    var one := [Handle(Join(x, p, ""))];
    var two := one + [Handle(Join(y, q, ""))];
    AppendAction(cfg, [], Handle(Join(x, p, "")));
    assert [] + one == one;
    AppendAction(cfg, one, Handle(Join(y, q, "")));
    AppendAction(cfg, two, Handle(UpdatePlayerTransform(p, out)));
    assert After(cfg, []) == INITIAL;
    hide After, Handled;
    JoinAppears(INITIAL, cfg, x, p);
    JoinAppears(After(cfg, one), cfg, y, q);
    StepOutside(After(cfg, two), cfg, p, q, out);
  }

  lemma JoinAppears(s: RoomState, cfg: RoomConfig, x: SessionID, p: PlayerID)
    ensures var t := Handled(s, cfg, Join(x, p, ""));
      t.players == s.players[p := JOINED] && t.indexed == s.indexed[p := Pos(0.0, 0.0)]
  {
    hide LockRuns.Run;
  }

  lemma StepOutside(s: RoomState, cfg: RoomConfig, p: PlayerID, q: PlayerID, out: PlayerTransform)
    requires !cfg.cluster.enabled && cfg.visualRadiusM > 0.0 && p != q && !InBounds(Pos(out.position.x, out.position.z))
    requires s.players == map[p := JOINED, q := JOINED] && s.indexed == map[p := Pos(0.0, 0.0), q := Pos(0.0, 0.0)]
    ensures var t := Handled(s, cfg, UpdatePlayerTransform(p, out));
      p in t.players && q in t.players && p in Visible(t, cfg, q) && Visible(t, cfg, p) == {}
  {
    SquareSign(cfg.visualRadiusM);
    hide LockRuns.Run, LockEventsOf, SqDist, Square;
    var t := Handled(s, cfg, UpdatePlayerTransform(p, out));
    assert t.players[p].Ground() == Pos(out.position.x, out.position.z) && t.players[q] == JOINED;
    assert t.indexed == s.indexed;
  }

  // ----- Locks -------------------------------------------------------------------

  /** The lock events a run amounts to. */
  ghost function LockEvents(a: Action): seq<LockRuns.LockEvent> {
    match a
    case BeginTick(now) => [LockRuns.Sweep(now)]
    case Handle(cmd) => LockEventsOf(cmd)
    case FinishTick(_, _) => []
    case MakeObject(id, kind, placed) => [LockRuns.CreateObject(id, kind, placed)]
  }

  ghost function AllLockEvents(acts: seq<Action>): seq<LockRuns.LockEvent> {
    if acts == [] then [] else AllLockEvents(acts[..|acts| - 1]) + LockEvents(acts[|acts| - 1])
  }

  lemma {:induction false} RunConcat(t: LockTable, lease: LockLease, a: seq<LockRuns.LockEvent>,
                                     b: seq<LockRuns.LockEvent>)
    ensures LockRuns.Run(t, lease, a + b) == LockRuns.Run(LockRuns.Run(t, lease, a), lease, b)
    decreases |b|
  {
    if b == [] {
      assert a + b == a;
    } else {
      var front := b[..|b| - 1];
      RunConcat(t, lease, a, front);
      assert (a + b)[..|a + b| - 1] == a + front;
    }
  }

  lemma NextLocks(s: RoomState, cfg: RoomConfig, a: Action)
    ensures Next(s, cfg, a).locks == LockRuns.Run(s.locks, cfg.lease, LockEvents(a))
  {
    hide LockEventsOf, Finished, LockRuns.Step;
    if a.FinishTick? {
      FinishKeeps(s, cfg, a.order, a.sorted);
      assert LockRuns.Run(s.locks, cfg.lease, []) == s.locks;
    }
  }

  /** The room's lock table is what its sweeps, commands and departures make of an empty one, so the
      cap, the accounting and the lease hold of it. */
  lemma {:induction false} RoomLocksAreARun(cfg: RoomConfig, acts: seq<Action>)
    ensures After(cfg, acts).locks == LockRuns.Run(EMPTY_TABLE, cfg.lease, AllLockEvents(acts))
  {
    if acts != [] {
      var front := acts[..|acts| - 1];
      RoomLocksAreARun(cfg, front);
      NextLocks(After(cfg, front), cfg, acts[|acts| - 1]);
      RunConcat(EMPTY_TABLE, cfg.lease, AllLockEvents(front), LockEvents(acts[|acts| - 1]));
      hide Next, LockRuns.Run;
    }
  }

  ghost function LastTickTime(acts: seq<Action>, initial: Time): Time {
    if acts == [] then initial
    else
      var last := acts[|acts| - 1];
      if last.BeginTick? then last.now else LastTickTime(acts[..|acts| - 1], initial)
  }

  /** Every lock command drained in a tick begun at T is stamped in (T - TTL, T]. */
  ghost predicate StampedInTime(lease: LockLease, acts: seq<Action>, initial: Time) {
    acts == [] || (
      var front, last := acts[..|acts| - 1], acts[|acts| - 1];
      && StampedInTime(lease, front, initial)
      && (last.Handle? && (last.cmd.ObjectLockAcquire? || last.cmd.ObjectLockRefresh? || last.cmd.ObjectLockRelease?)
          ==> LastTickTime(front, initial) - lease.ttl < last.cmd.at <= LastTickTime(front, initial)))
  }

  lemma TimelyExtends(lease: LockLease, events: seq<LockRuns.LockEvent>, ev: LockRuns.LockEvent, initial: Time)
    requires LockRuns.Timely(EMPTY_TABLE, lease, events, initial) && !ev.RemoveObject?
    requires var sweep := LockRuns.LastSweep(events, initial);
      ev.TryAcquire? || ev.TryRefresh? || ev.TryRelease? ==> sweep - lease.ttl < ev.at <= sweep
    ensures LockRuns.Timely(EMPTY_TABLE, lease, events + [ev], initial)
    ensures LockRuns.LastSweep(events + [ev], initial)
         == if ev.Sweep? then ev.at else LockRuns.LastSweep(events, initial)
  {
    hide LockRuns.Run;
    var more := events + [ev];
    assert more[..|more| - 1] == events && more[|more| - 1] == ev;
  }

  // At most two lock events per action, each extending a timely run.
  lemma ActionTimely(lease: LockLease, events: seq<LockRuns.LockEvent>, a: Action, initial: Time)
    requires LockRuns.Timely(EMPTY_TABLE, lease, events, initial)
    requires var sweep := LockRuns.LastSweep(events, initial);
      a.Handle? && (a.cmd.ObjectLockAcquire? || a.cmd.ObjectLockRefresh? || a.cmd.ObjectLockRelease?)
      ==> sweep - lease.ttl < a.cmd.at <= sweep
    ensures LockRuns.Timely(EMPTY_TABLE, lease, events + LockEvents(a), initial)
    ensures LockRuns.LastSweep(events + LockEvents(a), initial)
         == if a.BeginTick? then a.now else LockRuns.LastSweep(events, initial)
  {
    hide LockRuns.Timely, LockRuns.LastSweep;
    var more := LockEvents(a);
    if |more| == 1 {
      TimelyExtends(lease, events, more[0], initial);
      assert more == [more[0]];
    } else if |more| == 2 {
      TimelyExtends(lease, events, more[0], initial);
      TimelyExtends(lease, events + [more[0]], more[1], initial);
      assert events + more == events + [more[0]] + [more[1]];
    } else {
      assert events + more == events;
    }
  }

  lemma {:induction false} StampsMakeTimely(lease: LockLease, acts: seq<Action>, initial: Time)
    requires StampedInTime(lease, acts, initial)
    ensures LockRuns.Timely(EMPTY_TABLE, lease, AllLockEvents(acts), initial)
    ensures LockRuns.LastSweep(AllLockEvents(acts), initial) == LastTickTime(acts, initial)
  {
    if acts != [] {
      var front, last := acts[..|acts| - 1], acts[|acts| - 1];
      StampsMakeTimely(lease, front, initial);
      hide LockRuns.Timely, LockRuns.LastSweep, LockEvents;
      ActionTimely(lease, AllLockEvents(front), last, initial);
    } else {
      assert AllLockEvents(acts) == [];
    }
  }

  /** In a room whose lock commands are stamped in time, each user's counter is always the number of
      objects it holds; in any room it is at least that, and at most the cap. */
  lemma RoomLockCounts(cfg: RoomConfig, acts: seq<Action>, initial: Time, user: UserID)
    requires user != ""
    ensures var t := After(cfg, acts).locks;
      && |HeldBy(t.objects, user)| <= Count(t.counts, user)
      && Count(t.counts, user) <= (if cfg.lease.maxLocksPerUser > 0 then cfg.lease.maxLocksPerUser else 0)
      && Count(t.counts, user) == |HeldBy(t.objects, user)| + LockRuns.LeaksIn(cfg.lease, AllLockEvents(acts), user)
      && (StampedInTime(cfg.lease, acts, initial) ==> Count(t.counts, user) == |HeldBy(t.objects, user)|)
  {
    RoomLocksAreARun(cfg, acts);
    LockRuns.CountsAccounted(cfg.lease, AllLockEvents(acts), user);
    LockRuns.LocksStayCapped(cfg.lease, AllLockEvents(acts), user);
    if StampedInTime(cfg.lease, acts, initial) {
      StampsMakeTimely(cfg.lease, acts, initial);
      LockRuns.TimelyRunsCountExactly(cfg.lease, AllLockEvents(acts), initial);
    }
  }

  /** In room terms: what does not end a lease of `o` granted to `user` before its deadline. */
  ghost predicate RespectsLease(s: RoomState, a: Action, o: ObjectID, user: UserID, granted: Time, deadline: Time) {
    match a
    case BeginTick(now) => now < deadline
    case Handle(ObjectLockAcquire(x, u, _, at)) => x == o ==> at < deadline && (u == user ==> granted <= at)
    case Handle(ObjectLockRefresh(x, u, at)) => x == o && u == user ==> granted <= at
    case Handle(ObjectLockRelease(x, u, at)) => !(x == o && u == user)
    case Handle(Leave(session, _)) => o in s.locks.objects ==> s.locks.objects[o].lock.session != session
    case Handle(Disconnect(session)) => o in s.locks.objects ==> s.locks.objects[o].lock.session != session
    case _ => true
  }

  /** Every action of `more`, taken after `acts`, respects the lease. */
  ghost predicate RespectfulRun(cfg: RoomConfig, acts: seq<Action>, more: seq<Action>, o: ObjectID, user: UserID,
                                granted: Time)
  {
    more == [] || (
      var front := more[..|more| - 1];
      && RespectfulRun(cfg, acts, front, o, user, granted)
      && RespectsLease(After(cfg, acts + front), more[|more| - 1], o, user, granted, granted + cfg.lease.ttl))
  }

  lemma RespectIsHarmless(s: RoomState, lease: LockLease, a: Action, o: ObjectID, user: UserID, granted: Time)
    requires RespectsLease(s, a, o, user, granted, granted + lease.ttl)
    ensures LockRuns.HarmlessRun(s.locks, lease, LockEvents(a), o, user, granted)
  {
    hide LockRuns.Run;
    var evs := LockEvents(a);
    if |evs| > 0 {
      LockRuns.RunPrefix(s.locks, lease, evs, 0);
      assert evs[..1][..0] == evs[..0] == [];
      assert LockRuns.HarmlessRun(s.locks, lease, evs[..1], o, user, granted);
    }
  }

  lemma RespectKeepsLease(s: RoomState, cfg: RoomConfig, a: Action, o: ObjectID, user: UserID, granted: Time)
    requires cfg.lease.ttl > 0 && LockRuns.HoldsUntil(s.locks, o, user, granted + cfg.lease.ttl)
    requires RespectsLease(s, a, o, user, granted, granted + cfg.lease.ttl)
    ensures LockRuns.HoldsUntil(Next(s, cfg, a).locks, o, user, granted + cfg.lease.ttl)
  {
    hide Next, RespectsLease;
    NextLocks(s, cfg, a);
    RespectIsHarmless(s, cfg.lease, a, o, user, granted);
    LockRuns.HarmlessRunKeepsLease(s.locks, cfg.lease, LockEvents(a), o, user, granted);
  }

  lemma {:induction false} RespectfulRunKeepsLease(cfg: RoomConfig, acts: seq<Action>, more: seq<Action>, o: ObjectID,
                                                   user: UserID, granted: Time)
    requires cfg.lease.ttl > 0 && LockRuns.HoldsUntil(After(cfg, acts).locks, o, user, granted + cfg.lease.ttl)
    requires RespectfulRun(cfg, acts, more, o, user, granted)
    ensures LockRuns.HoldsUntil(After(cfg, acts + more).locks, o, user, granted + cfg.lease.ttl)
    decreases |more|
  {
    hide RespectsLease, LockRuns.HoldsUntil, After;
    if more == [] {
      assert acts + more == acts;
    } else {
      var front := more[..|more| - 1];
      RespectfulRunKeepsLease(cfg, acts, front, o, user, granted);
      RespectKeepsLease(After(cfg, acts + front), cfg, more[|more| - 1], o, user, granted);
      AppendAction(cfg, acts + front, more[|more| - 1]);
      assert acts + more == acts + front + [more[|more| - 1]];
    }
  }

  /** The lease in a room: an object granted to a user at g stays that user's at every time before g + TTL, through
      every continuation whose ticks begin before g + TTL and that holds none of: an acquire of it stamped past
      g + TTL, the user's own release or a renewal stamped before g, the end of the recorded session. */
  lemma RoomLeaseGuarantee(cfg: RoomConfig, acts: seq<Action>, more: seq<Action>,
                           o: ObjectID, user: UserID, session: SessionID, granted: Time, now: Time)
    requires cfg.lease.ttl > 0 && user != ""
    requires Acquire(After(cfg, acts).locks, cfg.lease, o, user, session, granted).result == Granted
    requires RespectfulRun(cfg, acts + [Handle(ObjectLockAcquire(o, user, session, granted))], more, o, user, granted)
    requires now < granted + cfg.lease.ttl
    ensures var t := After(cfg, acts + [Handle(ObjectLockAcquire(o, user, session, granted))] + more).locks;
      o in t.objects && t.objects[o].lock.IsOwnedBy(user, now)
  {
    var a := Handle(ObjectLockAcquire(o, user, session, granted));
    var s := After(cfg, acts);
    AppendAction(cfg, acts, a);
    NextLocks(s, cfg, a);
    LockRuns.RunPrefix(s.locks, cfg.lease, LockEvents(a), 0);
    hide After, LockRuns.Run, RespectfulRun;
    RespectfulRunKeepsLease(cfg, acts + [a], more, o, user, granted);
  }
}
