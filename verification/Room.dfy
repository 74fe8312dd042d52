// The room loop as it runs: one object owning the tables, mutated only by ticks.

module RoomRuntime {
  import opened Common
  import opened Geometry
  import opened KMeans
  import opened KMeansAllocator
  import opened Locks
  import LockRuns
  import opened LockManagement
  import opened SpatialHash
  import opened Interest
  import opened Players
  import opened Delta
  import opened RoomModel
  import opened RoomInvariants
  import Replication
  import opened ClusterSchedule

  class Room {
    const cfg: RoomConfig
    const spatial: GridSpatialHash
    const snapshotCache: SnapshotCache
    const objectMgr: ObjectManager
    const lockMgr: LockManager
    const clusterAlloc: KMeansClusterAllocator

    var activeSessions: map<SessionID, Attachment>
    var userSessionIndex: map<UserID, SessionID>
    var players: map<PlayerID, PlayerState>
    var dirtyPlayers: set<PlayerID>
    var playerCount: int
    var clusterOutput: ClusterOutput
    var lastClusterTick: nat
    var maxMovementSq: real
    var clusterMembershipDirty: bool
    var currentTick: nat
    var commands: seq<Command>

    ghost function Repr(): set<object>
      reads this, snapshotCache
    {
      {this, spatial, snapshotCache, objectMgr, lockMgr, clusterAlloc} + players.Values + snapshotCache.snapshots.Values
    }

    ghost predicate Valid()
      reads this, spatial, snapshotCache, lockMgr, clusterAlloc
    {
      && spatial.Valid() && spatial.maxWorldCoord == DEFAULT_MAX_WORLD_COORD
      && snapshotCache.Valid()
      && lockMgr.Valid() && lockMgr.objects == objectMgr && lockMgr.lease == cfg.lease
      && clusterAlloc.Valid()
      && DistinctRecords(players)
      && currentTick < UINT32 && lastClusterTick < UINT32
    }

    /** No record serves two players. */
    static ghost predicate DistinctRecords(players: map<PlayerID, PlayerState>) {
      forall p, q :: p in players && q in players && players[p] == players[q] ==> p == q
    }

    ghost function State(): RoomState
      reads this, spatial, snapshotCache, snapshotCache.snapshots.Values, players.Values, lockMgr, lockMgr.objects,
        clusterAlloc
    {
      RoomState(activeSessions, userSessionIndex, Views(players), spatial.Positions(), snapshotCache.View(),
                dirtyPlayers,
                lockMgr.Table(), playerCount, clusterOutput, clusterAlloc.prevOutput, lastClusterTick, maxMovementSq,
                clusterMembershipDirty, currentTick)
    }

    constructor (spec: RoomConfig)
      ensures Valid() && fresh(Repr()) && cfg == Effective(spec)
      ensures State() == INITIAL && commands == []
    {
      var config := Effective(spec);
      cfg := config;
      var objects := new ObjectManager();
      objectMgr := objects;
      lockMgr := new LockManager(objects, config.lease);
      spatial := new GridSpatialHash(config.spatialCellSizeM, 0.0);
      snapshotCache := new SnapshotCache();
      clusterAlloc := new KMeansClusterAllocator();
      activeSessions, userSessionIndex, players, dirtyPlayers, playerCount := map[], map[], map[], {}, 0;
      clusterOutput, lastClusterTick, maxMovementSq, clusterMembershipDirty, currentTick :=
        EMPTY_OUTPUT, 0, 0.0, false, 0;
      commands := [];
    }

    /** Tables that did not change look the same in the state. */
    twostate lemma Framed()
      ensures players == old(players) && (forall p :: p in players ==> unchanged(players[p]))
        ==> Views(players) == old(Views(players))
      ensures
        unchanged(snapshotCache) && (forall x :: x in snapshotCache.snapshots ==> unchanged(snapshotCache.snapshots[x]))
        ==> snapshotCache.View() == old(snapshotCache.View())
      ensures unchanged(spatial) ==> spatial.Positions() == old(spatial.Positions())
      ensures unchanged(lockMgr) && unchanged(lockMgr.objects) ==> lockMgr.Table() == old(lockMgr.Table())
    {
    }

    /** Which fields the state shows directly. */
    lemma StateIs()
      ensures var s := State();
        && s.sessions == activeSessions && s.users == userSessionIndex && s.dirty == dirtyPlayers
        && s.playerCount == playerCount && s.cluster == clusterOutput && s.lastClusterTick == lastClusterTick
        && s.maxMoveSq == maxMovementSq && s.membershipDirty == clusterMembershipDirty && s.tick == currentTick
        && s.players == Views(players) && s.locks == lockMgr.Table()
    {
    }

    /** Writing the room's own fields shows in those parts of the state and nowhere else. */
    twostate lemma FieldsWritten()
      requires unchanged(spatial) && unchanged(snapshotCache) && unchanged(lockMgr) && unchanged(lockMgr.objects)
      requires unchanged(clusterAlloc)
      requires forall x :: x in snapshotCache.snapshots ==> unchanged(snapshotCache.snapshots[x])
      ensures State() == old(State()).(
        sessions := activeSessions, users := userSessionIndex, players := Views(players), dirty := dirtyPlayers,
        playerCount := playerCount, cluster := clusterOutput, lastClusterTick := lastClusterTick,
        maxMoveSq := maxMovementSq, membershipDirty := clusterMembershipDirty, tick := currentTick)
      ensures players == old(players) && (forall p :: p in players ==> unchanged(players[p]))
        ==> Views(players) == old(Views(players))
      ensures
        && old(Valid()) && currentTick == old(currentTick) && lastClusterTick == old(lastClusterTick)
        && (DistinctRecords(old(players)) ==> DistinctRecords(players))
        ==> Valid()
    {
      Framed();
    }

    /** Writing the lock tables shows in the locks and nowhere else. */
    twostate lemma LocksWritten()
      requires unchanged(this) && unchanged(spatial) && unchanged(snapshotCache) && unchanged(clusterAlloc)
      requires forall p :: p in players ==> unchanged(players[p])
      requires forall x :: x in snapshotCache.snapshots ==> unchanged(snapshotCache.snapshots[x])
      ensures State() == old(State()).(locks := lockMgr.Table())
    {
      Framed();
    }

    // ----- One table at a time -----------------------------------------------------

    /** Installs the new session tables and marks the membership changed. */
    method Reseat(sessions: map<SessionID, Attachment>, users: map<UserID, SessionID>, change: int)
      requires Valid()
      modifies this`activeSessions, this`userSessionIndex, this`playerCount, this`clusterMembershipDirty
      ensures Valid()
      ensures State() == old(State()).(
        sessions := sessions, users := users, playerCount := old(State()).playerCount + change, membershipDirty := true)
    {
      hide State, Valid, Views, DistinctRecords;
      StateIs();
      activeSessions, userSessionIndex := sessions, users;
      playerCount := playerCount + change;
      clusterMembershipDirty := true;
      FieldsWritten();
    }

    method AttachSession(session: SessionID, player: PlayerID, user: UserID)
      requires Valid()
      modifies this`activeSessions, this`userSessionIndex, this`playerCount, this`clusterMembershipDirty
      ensures Valid()
      ensures State() == old(State()).(
        sessions := old(State()).sessions[session := Attachment(player, user)],
        users := if user != "" then old(State()).users[user := session] else old(State()).users,
        playerCount := old(State()).playerCount + 1,
        membershipDirty := true)
    {
      hide State, Valid;
      StateFields();
      var users := if user != "" then userSessionIndex[user := session] else userSessionIndex;
      Reseat(activeSessions[session := Attachment(player, user)], users, 1);
    }

    method DetachSession(session: SessionID)
      requires Valid() && session in activeSessions
      modifies this`activeSessions, this`userSessionIndex, this`playerCount, this`clusterMembershipDirty
      ensures Valid()
      ensures var user := old(activeSessions)[session].user;
        State() == old(State()).(
        sessions := old(State()).sessions - {session},
        users := if user != "" then old(State()).users - {user} else old(State()).users,
        playerCount := old(State()).playerCount - 1,
        membershipDirty := true)
    {
      hide State, Valid;
      StateFields();
      var user := activeSessions[session].user;
      var users := if user != "" then userSessionIndex - {user} else userSessionIndex;
      Reseat(activeSessions - {session}, users, -1);
    }

    method AddPlayer(player: PlayerID, user: UserID)
      requires Valid()
      modifies this`players
      ensures Valid() && fresh(players.Values - old(players.Values))
      ensures State() == old(State()).(players := old(State()).players[player := JOINED])
    {
      hide State, Valid, Views;
      var p := new PlayerState(player, user);
      p.SetStatus(Active);
      InstallPlayer(player, p);
    }

    method InstallPlayer(player: PlayerID, p: PlayerState)
      requires Valid() && p !in players.Values && p.Snapshot() == JOINED
      modifies this`players
      ensures Valid() && players == old(players)[player := p]
      ensures State() == old(State()).(players := old(State()).players[player := JOINED])
    {
      hide State, Valid;
      StateIs();
      players := players[player := p];
      assert DistinctRecords(old(players)) ==> DistinctRecords(players);
      assert Views(players) == old(Views(players))[player := JOINED];
      hide Views, DistinctRecords;
      FieldsWritten();
    }

    method DropPlayer(player: PlayerID, status: PlayerStatus)
      requires Valid()
      modifies this`players, players.Values
      ensures Valid() && players.Values <= old(players.Values)
      ensures State() == old(State()).(players := old(State()).players - {player})
    {
      hide State, Valid;
      StateIs();
      if player in players {
        players[player].SetStatus(status);
        players := players - {player};
      }
      assert DistinctRecords(old(players)) ==> DistinctRecords(players);
      assert Views(players) == old(Views(players)) - {player};
      hide Views, DistinctRecords;
      FieldsWritten();
    }

    method IndexPlayer(player: PlayerID, pos: Pos)
      requires Valid()
      modifies spatial
      ensures Valid()
      ensures State() == old(State()).(indexed :=
        if Within(pos, DEFAULT_MAX_WORLD_COORD) then old(State()).indexed[player := pos] else old(State()).indexed)
    {
      var ok := spatial.Update(player, pos);
      Framed();
    }

    method UnindexPlayer(player: PlayerID)
      requires Valid()
      modifies spatial
      ensures Valid()
      ensures State() == old(State()).(indexed := old(State()).indexed - {player})
    {
      spatial.Remove(player);
      Framed();
    }

    method OpenSnapshot(session: SessionID)
      requires Valid()
      modifies snapshotCache
      ensures Valid() && fresh(snapshotCache.snapshots.Values - old(snapshotCache.snapshots.Values))
      ensures State() == old(State()).(snapshots :=
        if session in old(State()).snapshots then old(State()).snapshots else old(State()).snapshots[session := map[]])
    {
      var _ := snapshotCache.GetOrCreate(session);
      Framed();
    }

    method CloseSnapshot(session: SessionID)
      requires Valid()
      modifies snapshotCache
      ensures Valid() && snapshotCache.snapshots.Values <= old(snapshotCache.snapshots.Values)
      ensures State() == old(State()).(snapshots := old(State()).snapshots - {session})
    {
      snapshotCache.Remove(session);
      Framed();
    }

    method MovePlayer(player: PlayerID, to: PlayerTransform)
      requires Valid() && player in players
      modifies players.Values
      ensures Valid()
      ensures State() == old(State()).(
        players := old(State()).players[player := old(State()).players[player].Moved(to, old(State()).tick)])
    {
      hide State;
      StateIs();
      players[player].UpdateTransform(to, currentTick);
      assert Views(players) == old(Views(players))[player := old(Views(players))[player].Moved(to, currentTick)];
      FieldsWritten();
    }

    method NoteMove(player: PlayerID, distSq: real)
      requires Valid()
      modifies this`maxMovementSq, this`dirtyPlayers
      ensures Valid()
      ensures State() == MoveNoted(old(State()), player, distSq)
    {
      hide State, Valid, Views;
      StateIs();
      if distSq > maxMovementSq {
        maxMovementSq := distSq;
      }
      dirtyPlayers := dirtyPlayers + {player};
      FieldsWritten();
    }

    method ForgetDirty(player: PlayerID)
      requires Valid()
      modifies this`dirtyPlayers
      ensures Valid()
      ensures State() == old(State()).(dirty := old(State()).dirty - {player})
    {
      hide State, Valid, Views;
      StateIs();
      dirtyPlayers := dirtyPlayers - {player};
      FieldsWritten();
    }

    // ----- Locks -----------------------------------------------------------------

    method ReleaseExpiredLocks(now: Time)
      requires Valid()
      modifies lockMgr, objectMgr
      ensures Valid()
      ensures State() == old(State()).(locks := LockRuns.Step(old(State()).locks, cfg.lease, LockRuns.Sweep(now)))
    {
      hide State;
      StateIs();
      var released := lockMgr.ReleaseExpired(now);
      LocksWritten();
    }

    method ReleaseSessionLocks(session: SessionID)
      requires Valid()
      modifies lockMgr, objectMgr
      ensures Valid()
      ensures State() == old(State()).(
        locks := LockRuns.Step(old(State()).locks, cfg.lease, LockRuns.SessionEnd(session)))
    {
      hide State;
      StateIs();
      var released := lockMgr.ReleaseBySession(session);
      LocksWritten();
    }

    method LockCommand(ev: LockRuns.LockEvent)
      requires Valid() && (ev.TryAcquire? || ev.TryRefresh? || ev.TryRelease?)
      modifies lockMgr, objectMgr
      ensures Valid()
      ensures State() == old(State()).(locks := LockRuns.Step(old(State()).locks, cfg.lease, ev))
    {
      hide State;
      StateIs();
      var r;
      match ev {
        case TryAcquire(id, user, session, at) => r := lockMgr.AcquireLock(id, user, session, at);
        case TryRefresh(id, user, at) => r := lockMgr.RefreshLock(id, user, at);
        case TryRelease(id, user, at) => r := lockMgr.ReleaseLock(id, user, at);
      }
      LocksWritten();
    }

    method UpdateObject(ev: LockRuns.LockEvent) returns (ok: bool)
      requires Valid() && (ev.UpdateTransform? || ev.UpdateState? || ev.CreateObject?)
      modifies objectMgr
      ensures Valid()
      ensures ok <==> (ev.CreateObject? <==> ev.id !in old(State()).locks.objects)
      ensures State() == old(State()).(locks := LockRuns.Step(old(State()).locks, cfg.lease, ev))
    {
      hide State;
      StateIs();
      match ev {
        case UpdateTransform(id, to) => ok := objectMgr.UpdateTransform(id, to);
        case UpdateState(id, state) => ok := objectMgr.UpdateCustomState(id, state);
        case CreateObject(id, kind, to) => ok := objectMgr.CreateObject(id, kind, to);
      }
      assert lockMgr.Table() == objectMgr.With(lockMgr.userLockCount);
      LocksWritten();
    }

    // ----- Commands --------------------------------------------------------------

    lemma StateFields()
      ensures State().users == userSessionIndex && State().sessions == activeSessions && State().tick == currentTick
      ensures State().players.Keys == players.Keys
      ensures forall p :: p in players ==> State().players[p] == players[p].Snapshot()
    {
    }

    /** New objects may enter the room's tables; nothing foreign does. */
    twostate predicate Grown()
      reads this, snapshotCache
    {
      && fresh(players.Values - old(players.Values))
      && fresh(snapshotCache.snapshots.Values - old(snapshotCache.snapshots.Values))
    }

    method HandleJoin(session: SessionID, player: PlayerID, user: UserID)
      requires Valid()
      modifies this, spatial, snapshotCache
      ensures Valid() && Grown() && commands == old(commands)
      ensures State() == Joined(old(State()), session, player, user)
    {
      hide State, Valid;
      StateFields();
      if user != "" && user in userSessionIndex {
        return;
      }
      AttachSession(session, player, user);
      Admit(session, player, user);
    }

    /** Gives an attached session its player at the origin and an empty snapshot. */
    method Admit(session: SessionID, player: PlayerID, user: UserID)
      requires Valid()
      modifies this`players, spatial, snapshotCache
      ensures Valid() && Grown()
      ensures State() == old(State()).(
        players := old(State()).players[player := JOINED],
        indexed := old(State()).indexed[player := Pos(0.0, 0.0)],
        snapshots := if session in old(State()).snapshots then old(State()).snapshots
                     else old(State()).snapshots[session := map[]])
    {
      hide State, Valid;
      AddPlayer(player, user);
      IndexPlayer(player, Pos(0.0, 0.0));
      OpenSnapshot(session);
    }

    /** The part leave and disconnect share. */
    method Detach(session: SessionID, player: PlayerID, status: PlayerStatus)
      requires Valid() && session in activeSessions
      modifies this, spatial, snapshotCache, players.Values
      ensures Valid() && Grown() && commands == old(commands)
      ensures State() == Detached(old(State()), session, player)
    {
      hide State, Valid;
      StateFields();
      DetachSession(session);
      Dismiss(session, player, status);
    }

    /** Takes a detached session's player and snapshot out of the tables. */
    method Dismiss(session: SessionID, player: PlayerID, status: PlayerStatus)
      requires Valid()
      modifies this`players, this`dirtyPlayers, spatial, snapshotCache, players.Values
      ensures Valid() && Grown()
      ensures State() == old(State()).(
        players := old(State()).players - {player},
        indexed := old(State()).indexed - {player},
        snapshots := old(State()).snapshots - {session},
        dirty := old(State()).dirty - {player})
    {
      hide State, Valid;
      DropPlayer(player, status);
      UnindexPlayer(player);
      CloseSnapshot(session);
      ForgetDirty(player);
    }

    /** Records a present player's new transform and indexes it; the result is the squared distance moved. */
    method Relocate(player: PlayerID, to: PlayerTransform) returns (distSq: real)
      requires Valid() && player in players
      modifies spatial, players.Values
      ensures Valid() && player in old(State()).players
      ensures distSq == SqDist(Pos(to.position.x, to.position.z), old(State()).players[player].Ground())
      ensures State() == Relocated(old(State()), player, to)
    {
      hide State, Valid, Within, SqDist;
      StateFields();
      var newPos := Pos(to.position.x, to.position.z);
      distSq := SqDist(newPos, players[player].Snapshot().Ground());
      MovePlayer(player, to);
      IndexPlayer(player, newPos);
    }

    /** The part player input and transform updates share. */
    method Move(player: PlayerID, to: PlayerTransform)
      requires Valid()
      modifies this, spatial, players.Values
      ensures Valid() && Grown() && commands == old(commands)
      ensures State() == Moved(old(State()), player, to)
    {
      hide State, Valid, SqDist, Moved, MoveNoted, Relocated;
      StateFields();
      MovedInSteps(State(), player, to);
      if player in players {
        var distSq := Relocate(player, to);
        NoteMove(player, distSq);
      }
    }

    method HandleCommand(cmd: Command)
      requires Valid()
      modifies this, spatial, snapshotCache, lockMgr, objectMgr, players.Values
      ensures Valid() && Grown() && commands == old(commands)
      ensures State() == Handled(old(State()), cfg, cmd)
    {
      hide State, Valid, Joined, Detached, Moved, LockRuns.Run, LockRuns.Step;
      StateFields();
      RunOfCommand(State().locks, cfg.lease, cmd);
      LocksKept(State(), cmd);
      match cmd {
        case Join(session, player, user) => HandleJoin(session, player, user);
        case Leave(session, player) =>
          if session in activeSessions {
            Detach(session, player, Leaving);
          }
          ReleaseSessionLocks(session);
        case Disconnect(session) =>
          if session in activeSessions {
            Detach(session, activeSessions[session].player, Gone);
          }
          ReleaseSessionLocks(session);
        case PlayerInput(player, transform, clientTime) =>
          if ValidInput(transform, clientTime) {
            Move(player, transform);
          }
        case UpdatePlayerTransform(player, transform) => Move(player, transform);
        case _ => HandleObjectCommand(cmd);
      }
    }

    /** Commands that touch only the objects, or nothing. */
    method HandleObjectCommand(cmd: Command)
      requires Valid()
      requires
        || cmd.ObjectLockAcquire? || cmd.ObjectLockRefresh? || cmd.ObjectLockRelease?
        || cmd.ObjectUpdate? || cmd.Malformed?
      modifies lockMgr, objectMgr
      ensures Valid()
      ensures State() == Handled(old(State()), cfg, cmd)
    {
      hide State, Valid, LockRuns.Run, LockRuns.Step;
      RunOfCommand(State().locks, cfg.lease, cmd);
      match cmd {
        case ObjectLockAcquire(o, user, session, at) => LockCommand(LockRuns.TryAcquire(o, user, session, at));
        case ObjectLockRefresh(o, user, at) => LockCommand(LockRuns.TryRefresh(o, user, at));
        case ObjectLockRelease(o, user, at) => LockCommand(LockRuns.TryRelease(o, user, at));
        case ObjectUpdate(o, placed, state) =>
          if placed.Some? {
            var _ := UpdateObject(LockRuns.UpdateTransform(o, placed.value));
          }
          if state.Some? {
            var _ := UpdateObject(LockRuns.UpdateState(o, state.value));
          }
        case Malformed =>
      }
    }

    /** Registers an object on behalf of room management code; an ID already in use is an error. */
    method CreateObject(id: ObjectID, kind: string, transform: ObjectTransform) returns (ok: bool)
      requires Valid()
      modifies objectMgr
      ensures Valid()
      ensures ok <==> id !in old(State()).locks.objects
      ensures State() == Next(old(State()), cfg, MakeObject(id, kind, transform))
    {
      hide State, Valid, LockRuns.Step, LockRuns.Run;
      RunOfOne(State().locks, cfg.lease, LockRuns.CreateObject(id, kind, transform));
      ok := UpdateObject(LockRuns.CreateObject(id, kind, transform));
    }

    /** Queues a command unless the queue is full. */
    method Enqueue(cmd: Command) returns (ok: bool)
      requires Valid()
      modifies this`commands
      ensures Valid() && State() == old(State())
      ensures ok <==> |old(commands)| < cfg.commandQueueSize
      ensures commands == if ok then old(commands) + [cmd] else old(commands)
    {
      hide State, Valid, Views;
      StateIs();
      ok := |commands| < cfg.commandQueueSize;
      if ok {
        commands := commands + [cmd];
      }
      FieldsWritten();
    }

    /** Handles everything queued, oldest first. */
    method DrainCommands()
      requires Valid()
      modifies this, spatial, snapshotCache, lockMgr, objectMgr, players.Values
      ensures Valid() && Grown() && commands == []
      ensures State() == Drained(old(State()), cfg, old(commands))
    {
      hide State, Valid, Handled;
      ghost var s, cmds := State(), commands;
      ghost var n := 0;
      assert cmds[..0] == [];
      while commands != []
        invariant n <= |cmds| && commands == cmds[n..]
        invariant Valid() && Grown()
        invariant State() == Drained(s, cfg, cmds[..n])
        decreases |commands|
      {
        var cmd := commands[0];
        TakeCommand();
        HandleCommand(cmd);
        assert cmds[..n + 1][..n] == cmds[..n];
        n := n + 1;
      }
      assert cmds[..n] == cmds;
    }

    method TakeCommand()
      requires Valid() && commands != []
      modifies this`commands
      ensures Valid() && State() == old(State()) && commands == old(commands)[1..]
    {
      hide State, Valid, Views;
      StateIs();
      commands := commands[1..];
      FieldsWritten();
    }

    // ----- Clusters --------------------------------------------------------------

    /** Lists the players in whatever order the map yields them. */
    method CollectPlayers() returns (input: seq<ClusterPlayer>, ghost order: seq<PlayerID>)
      ensures Enumerates(order, State().players.Keys)
      ensures input == ClusterInput(State().players, order)
    {
      hide State, ClusterInput;
      StateFields();
      input, order := [], [];
      EmptyInput(State().players);
      var rest := players.Keys;
      while rest != {}
        invariant rest <= players.Keys
        invariant Enumerates(order, players.Keys - rest)
        invariant input == ClusterInput(State().players, order)
      {
        var id :| id in rest;
        InputOneMore(State().players, order, id);
        EnumeratesOneMore(order, players.Keys - rest, id);
        rest := rest - {id};
        assert players.Keys - rest == (players.Keys - (rest + {id})) + {id};
        input := input + [ClusterPlayer(id, players[id].Snapshot().Ground())];
        order := order + [id];
      }
    }

    method CommitCluster(out: ClusterOutput)
      requires Valid()
      modifies this`clusterOutput, this`lastClusterTick, this`maxMovementSq, this`clusterMembershipDirty
      ensures Valid()
      ensures State() == old(State()).(
        cluster := out, lastClusterTick := old(State()).tick, maxMoveSq := 0.0, membershipDirty := false)
    {
      hide State, Views;
      StateIs();
      clusterOutput := out;
      lastClusterTick := currentTick;
      maxMovementSq := 0.0;
      clusterMembershipDirty := false;
      FieldsWritten();
    }

    method RunAllocator(input: seq<ClusterPlayer>) returns (r: ComputeResult, ghost sorted: seq<ClusterPlayer>)
      requires Valid()
      modifies clusterAlloc
      ensures Valid()
      ensures r.Err? <==> !ValidConfig(cfg.cluster)
      ensures r.Err? ==> State() == old(State())
      ensures r.Ok? ==>
        var valid := ValidPlayers(input, cfg.cluster.maxPlayersPerRoom);
        && IsSortOf(sorted, valid) && |sorted| == |valid|
        && r.output == Clustering(valid, sorted, cfg.cluster, old(State()).previous)
        && State() == old(State()).(previous := Some(r.output))
    {
      r, sorted := clusterAlloc.Compute(input, cfg.cluster);
      Framed();
    }

    method RecomputeCluster() returns (ghost order: seq<PlayerID>, ghost sorted: seq<ClusterPlayer>)
      requires Valid()
      modifies this`clusterOutput, this`lastClusterTick, this`maxMovementSq, this`clusterMembershipDirty, clusterAlloc
      ensures Valid()
      ensures !ValidConfig(cfg.cluster) ==> State() == old(State())
      ensures ValidConfig(cfg.cluster) ==>
        && PossibleOrder(old(State()), cfg.cluster, order, sorted)
        && State() == Recomputed(old(State()), cfg.cluster, order, sorted)
    {
      hide State, Valid, Clustering, ValidPlayers, ClusterInput, IsSortOf, Enumerates;
      var input, r;
      input, order := CollectPlayers();
      r, sorted := RunAllocator(input);
      if r.Ok? {
        CommitCluster(r.output);
      }
    }

    // ----- Broadcast -------------------------------------------------------------

    method VisiblePlayersFor(player: PlayerID) returns (visible: seq<PlayerID>)
      requires Valid()
      ensures Elements(visible) == Visible(State(), cfg, player)
    {
      visible := [];
      if cfg.cluster.enabled {
        if player in clusterOutput.assignments {
          var members := MembersIn(clusterOutput.clusters, clusterOutput.assignments[player]);
          for i := 0 to |members|
            invariant forall id :: id in visible <==> id in members[..i] && id != player
          {
            if members[i] != player {
              visible := visible + [members[i]];
            }
          }
        }
      } else if player in players {
        visible := QueryVisiblePlayers(spatial, players[player].Snapshot().Ground(), player, cfg.visualRadiusM);
      }
    }

    /** Builds one session's delta against its snapshot, updating the snapshot in place. */
    method BuildFor(session: SessionID, visible: seq<PlayerID>) returns (d: PlayerDelta)
      requires Valid() && session in snapshotCache.snapshots
      modifies snapshotCache.snapshots.Values
      ensures Valid() && session in old(State()).snapshots
      ensures d.tick == old(State()).tick
      ensures IsDelta(d, Elements(visible), old(State()).snapshots[session], old(State()).players)
      ensures State() == old(State()).(snapshots := old(State()).snapshots[
        session := SnapshotAfter(Elements(visible), old(State()).snapshots[session], old(State()).players)])
    {
      d := BuildPlayerDelta(currentTick, visible, snapshotCache.snapshots[session], players);
      assert snapshotCache.View() == old(snapshotCache.View())[
        session := SnapshotAfter(Elements(visible), old(snapshotCache.View())[session], old(Views(players)))];
      Framed();
    }

    method ServeSession(session: SessionID) returns (d: PlayerDelta)
      requires Valid() && session in activeSessions && activeSessions[session].player in players
      modifies snapshotCache, snapshotCache.snapshots.Values
      ensures Valid() && fresh(snapshotCache.snapshots.Values - old(snapshotCache.snapshots.Values))
      ensures Served(old(State()), session)
      ensures DeltaFor(old(State()), cfg, session, d)
      ensures State() == ServedOne(old(State()), cfg, session)
    {
      hide State, Valid, IsDelta, SnapshotAfter, Elements, Visible;
      StateFields();
      ghost var s := State();
      var player := activeSessions[session].player;
      var visible := VisiblePlayersFor(player);
      OpenSnapshot(session);
      SessionOpen(session);
      d := BuildFor(session, visible);
      OpenThenWrite(s.snapshots, session, Refreshed(s, cfg, session));
    }

    lemma SessionOpen(session: SessionID)
      ensures session in State().snapshots <==> session in snapshotCache.snapshots
    {
    }

    method BuildDeltaBatches() returns (batches: map<SessionID, PlayerDelta>)
      requires Valid()
      modifies snapshotCache, snapshotCache.snapshots.Values
      ensures Valid() && fresh(snapshotCache.snapshots.Values - old(snapshotCache.snapshots.Values))
      ensures Sent(old(State()), cfg, State(), old(State()).sessions.Keys, batches)
    {
      hide State, Valid, DeltaFor, ServedOne, Sent;
      StateFields();
      ghost var s := State();
      ghost var done: set<SessionID> := {};
      SentNone(s, cfg);
      batches := map[];
      var rest := activeSessions.Keys;
      while rest != {}
        invariant Valid() && done !! rest && done + rest == s.sessions.Keys
        invariant fresh(snapshotCache.snapshots.Values - old(snapshotCache.snapshots.Values))
        invariant Sent(s, cfg, State(), done, batches)
      {
        var x :| x in rest;
        rest := rest - {x};
        StateFields();
        SentFrame(s, cfg, State(), done, batches);
        ghost var before := State();
        if activeSessions[x].player in players {
          var d := ServeSession(x);
          SentOneMore(s, cfg, before, done, batches, x, d);
          batches := batches[x := d];
        } else {
          SentSkip(s, cfg, before, done, batches, x);
        }
        done := done + {x};
      }
      assert done == s.sessions.Keys;
    }

    method ClearDirty()
      requires Valid()
      modifies this`dirtyPlayers
      ensures Valid() && State() == old(State()).(dirty := {})
    {
      hide State, Valid, Views;
      StateIs();
      dirtyPlayers := {};
      FieldsWritten();
    }

    method BroadcastDeltas() returns (batches: map<SessionID, PlayerDelta>)
      requires Valid()
      modifies this`dirtyPlayers, snapshotCache, snapshotCache.snapshots.Values
      ensures Valid() && fresh(snapshotCache.snapshots.Values - old(snapshotCache.snapshots.Values))
      ensures forall x :: x in batches <==> Served(old(State()), x)
      ensures forall x :: x in batches ==> DeltaFor(old(State()), cfg, x, batches[x])
      ensures State() == Broadcast(old(State()), cfg)
    {
      hide State, Valid, DeltaFor, Broadcast, ServedAll;
      ServedAllIsBroadcast(State(), cfg);
      batches := BuildDeltaBatches();
      ClearDirty();
    }

    // ----- The tick --------------------------------------------------------------

    method AdvanceTick()
      requires Valid()
      modifies this`currentTick
      ensures Valid() && State() == old(State()).(tick := Succ32(old(State()).tick))
    {
      hide State, Views;
      StateIs();
      currentTick := Succ32(currentTick);
      FieldsWritten();
    }

    /** Clusters if a trigger fired. */
    method ClusterIfDue() returns (ghost order: seq<PlayerID>, ghost sorted: seq<ClusterPlayer>)
      requires Valid()
      modifies this`clusterOutput, this`lastClusterTick, this`maxMovementSq, this`clusterMembershipDirty, clusterAlloc
      ensures Valid()
      ensures Due(old(State()), cfg.cluster) ==> PossibleOrder(old(State()), cfg.cluster, order, sorted)
      ensures State() == Clustered(old(State()), cfg.cluster, order, sorted)
    {
      hide State, Valid, PossibleOrder, Recomputed, ShouldRecompute;
      order, sorted := [], [];
      var due := Triggered();
      if due {
        order, sorted := RecomputeCluster();
      }
    }

    /** Broadcasts if this is a broadcast tick. */
    method BroadcastIfDue() returns (batches: map<SessionID, PlayerDelta>)
      requires Valid()
      modifies this`dirtyPlayers, snapshotCache, snapshotCache.snapshots.Values
      ensures Valid() && fresh(snapshotCache.snapshots.Values - old(snapshotCache.snapshots.Values))
      ensures var c := old(State());
        if IsBroadcastTick(cfg, c.tick)
        then
          && State() == Broadcast(c, cfg)
          && (forall x :: x in batches <==> Served(c, x))
          && (forall x :: x in batches ==> DeltaFor(c, cfg, x, batches[x]))
        else State() == c && batches == map[]
    {
      hide State, Valid, Broadcast, DeltaFor, IsBroadcastTick;
      batches := map[];
      StateFields();
      if IsBroadcastTick(cfg, currentTick) {
        batches := BroadcastDeltas();
      }
    }

    method FinishTick()
      returns (batches: map<SessionID, PlayerDelta>, ghost order: seq<PlayerID>, ghost sorted: seq<ClusterPlayer>)
      requires Valid()
      modifies this, clusterAlloc, snapshotCache, snapshotCache.snapshots.Values
      ensures Valid() && Grown() && commands == old(commands)
      ensures Legal(old(State()), cfg, RoomModel.FinishTick(order, sorted))
      ensures Replication.Sends(old(State()), cfg, RoomModel.FinishTick(order, sorted), batches)
      ensures State() == Finished(old(State()), cfg, order, sorted)
    {
      hide State, Valid, PossibleOrder, Clustered, Due, Broadcast, DeltaFor, IsBroadcastTick, Replication.Sends;
      ghost var s := State();
      order, sorted := ClusterIfDue();
      ghost var c := State();
      batches := BroadcastIfDue();
      SendsIff(s, c, cfg, order, sorted, batches);
    }

    method Triggered() returns (due: bool)
      requires Valid()
      ensures TicksInRange(State()) && (due <==> ShouldRecompute(State(), cfg.cluster))
    {
      due := cfg.cluster.enabled
        && (|| Sub32(currentTick, lastClusterTick) >= cfg.cluster.reclusterIntervalTicks % UINT32
            || cfg.cluster.movementThreshold < 0.0 || maxMovementSq > Square(cfg.cluster.movementThreshold)
            || clusterMembershipDirty);
    }

    method BeginTick(now: Time)
      requires Valid()
      modifies this`currentTick, lockMgr, objectMgr
      ensures Valid() && State() == Begun(old(State()), cfg, now)
    {
      hide State, Valid, LockRuns.Step, LockRuns.Run;
      RunOfOne(State().locks, cfg.lease, LockRuns.Sweep(now));
      AdvanceTick();
      ReleaseExpiredLocks(now);
    }

    /** One step of the loop: sweep, drain, cluster, broadcast. */
    method Tick(now: Time)
      returns (batches: map<SessionID, PlayerDelta>, ghost order: seq<PlayerID>, ghost sorted: seq<ClusterPlayer>)
      requires Valid()
      modifies this, spatial, snapshotCache, lockMgr, objectMgr, clusterAlloc, players.Values,
        snapshotCache.snapshots.Values
      ensures Valid() && Grown() && commands == []
      ensures var drained := Drained(Begun(old(State()), cfg, now), cfg, old(commands));
        && Legal(drained, cfg, RoomModel.FinishTick(order, sorted))
        && Replication.Sends(drained, cfg, RoomModel.FinishTick(order, sorted), batches)
        && State() == Finished(drained, cfg, order, sorted)
    {
      hide State, Valid, Begun, Drained, Finished, Legal, Replication.Sends;
      BeginTick(now);
      DrainCommands();
      batches, order, sorted := FinishTick();
    }
  }

  // ----- What the loops compute --------------------------------------------------

  ghost function Drained(s: RoomState, cfg: RoomConfig, cmds: seq<Command>): RoomState {
    if cmds == [] then s else Handled(Drained(s, cfg, cmds[..|cmds| - 1]), cfg, cmds[|cmds| - 1])
  }

  lemma RunOfCommand(t: LockTable, lease: LockLease, cmd: Command)
    ensures var evs := LockEventsOf(cmd);
      && (|evs| == 0 ==> LockRuns.Run(t, lease, evs) == t)
      && (|evs| == 1 ==> LockRuns.Run(t, lease, evs) == LockRuns.Step(t, lease, evs[0]))
      && (|evs| == 2 ==> LockRuns.Run(t, lease, evs) == LockRuns.Step(LockRuns.Step(t, lease, evs[0]), lease, evs[1]))
  {
    hide LockRuns.Step;
    var evs := LockEventsOf(cmd);
    if |evs| == 2 {
      var one := evs[..1];
      assert one == [evs[0]] && one[..0] == [];
      assert LockRuns.Run(t, lease, one) == LockRuns.Step(t, lease, evs[0]);
    }
  }

  ghost function Relocated(s: RoomState, player: PlayerID, to: PlayerTransform): RoomState
    requires player in s.players
  {
    var after := s.players[player].Moved(to, s.tick);
    s.(players := s.players[player := after],
       indexed := if Within(after.Ground(), DEFAULT_MAX_WORLD_COORD) then s.indexed[player := after.Ground()]
                  else s.indexed)
  }

  ghost function MoveNoted(s: RoomState, player: PlayerID, distSq: real): RoomState {
    s.(maxMoveSq := if distSq > s.maxMoveSq then distSq else s.maxMoveSq, dirty := s.dirty + {player})
  }

  // A move relocates the player, then notes how far it went.
  lemma MovedInSteps(s: RoomState, player: PlayerID, to: PlayerTransform)
    ensures Moved(s, player, to) ==
      if player !in s.players then s
      else MoveNoted(Relocated(s, player, to), player,
                     SqDist(Pos(to.position.x, to.position.z), s.players[player].Ground()))
  {
    hide SqDist, Within;
  }

  lemma LocksKept(s: RoomState, cmd: Command)
    ensures WithoutLocks(s, cmd).locks == s.locks
  {
  }

  lemma EmptyInput(players: map<PlayerID, PlayerView>)
    ensures ClusterInput(players, []) == []
  {
  }

  lemma InputOneMore(players: map<PlayerID, PlayerView>, order: seq<PlayerID>, id: PlayerID)
    requires id in players && forall x :: x in order ==> x in players
    ensures ClusterInput(players, order + [id])
      == ClusterInput(players, order) + [ClusterPlayer(id, players[id].Ground())]
  {
  }

  ghost predicate DeltaFor(s: RoomState, cfg: RoomConfig, x: SessionID, d: PlayerDelta) {
    && Served(s, x) && d.tick == s.tick
    && IsDelta(d, Visible(s, cfg, s.sessions[x].player), SnapshotOf(s, x), s.players)
  }

  ghost function ServedOne(s: RoomState, cfg: RoomConfig, x: SessionID): RoomState
    requires Served(s, x)
  {
    s.(snapshots := s.snapshots[x := Refreshed(s, cfg, x)])
  }

  ghost function ServedSnapshots(s: RoomState, cfg: RoomConfig, done: set<SessionID>): map<SessionID, Snapshot> {
    map x | x in s.snapshots.Keys + done && (x in s.snapshots || Served(s, x)) ::
      if x in done && Served(s, x) then Refreshed(s, cfg, x) else SnapshotOf(s, x)
  }

  /** The sessions in `done` have been considered. */
  ghost function ServedAll(s: RoomState, cfg: RoomConfig, done: set<SessionID>): RoomState {
    s.(snapshots := ServedSnapshots(s, cfg, done))
  }

  lemma ServedSnapshotsGrow(s: RoomState, cfg: RoomConfig, done: set<SessionID>, x: SessionID)
    ensures ServedSnapshots(s, cfg, done + {x})
         == if Served(s, x) then ServedSnapshots(s, cfg, done)[x := Refreshed(s, cfg, x)]
            else ServedSnapshots(s, cfg, done)
  {
    hide Refreshed, SnapshotOf;
  }

  /** What has been sent once the sessions in `done` have been considered. */
  ghost predicate Sent(s: RoomState, cfg: RoomConfig, now: RoomState, done: set<SessionID>,
                       batches: map<SessionID, PlayerDelta>)
  {
    && now == ServedAll(s, cfg, done)
    && (forall x :: x in batches <==> x in done && Served(s, x))
    && (forall x :: x in batches ==> DeltaFor(s, cfg, x, batches[x]))
  }

  lemma SentNone(s: RoomState, cfg: RoomConfig)
    ensures Sent(s, cfg, s, {}, map[])
  {
    hide Refreshed;
    assert ServedSnapshots(s, cfg, {}) == s.snapshots;
  }

  lemma SentFrame(s: RoomState, cfg: RoomConfig, now: RoomState, done: set<SessionID>,
                  batches: map<SessionID, PlayerDelta>)
    requires Sent(s, cfg, now, done, batches)
    ensures now.sessions == s.sessions && now.players == s.players
  {
    hide ServedSnapshots, DeltaFor;
  }

  lemma SentSkip(s: RoomState, cfg: RoomConfig, now: RoomState, done: set<SessionID>,
                 batches: map<SessionID, PlayerDelta>, x: SessionID)
    requires Sent(s, cfg, now, done, batches) && !Served(s, x)
    ensures Sent(s, cfg, now, done + {x}, batches)
  {
    hide ServedSnapshots, DeltaFor;
    ServedSnapshotsGrow(s, cfg, done, x);
  }

  lemma SentOneMore(s: RoomState, cfg: RoomConfig, now: RoomState, done: set<SessionID>,
                    batches: map<SessionID, PlayerDelta>, x: SessionID, d: PlayerDelta)
    requires Sent(s, cfg, now, done, batches) && x !in done && Served(now, x) && DeltaFor(now, cfg, x, d)
    ensures Sent(s, cfg, ServedOne(now, cfg, x), done + {x}, batches[x := d])
  {
    hide ServedSnapshots, DeltaFor, Refreshed, SnapshotOf, Served;
    ServedElsewhere(s, cfg, done, x);
    SameService(s, now, cfg, x);
    ServedSnapshotsGrow(s, cfg, done, x);
  }

  lemma OpenThenWrite(m: map<SessionID, Snapshot>, x: SessionID, v: Snapshot)
    ensures (if x in m then m else m[x := map[]])[x := v] == m[x := v]
  {
  }

  // Serving other sessions changes nothing for x.
  lemma SameService(s: RoomState, t: RoomState, cfg: RoomConfig, x: SessionID)
    requires t == s.(snapshots := t.snapshots) && SnapshotOf(t, x) == SnapshotOf(s, x)
    ensures Served(t, x) <==> Served(s, x)
    ensures Served(s, x) ==> Refreshed(t, cfg, x) == Refreshed(s, cfg, x)
    ensures forall d :: DeltaFor(t, cfg, x, d) <==> DeltaFor(s, cfg, x, d)
  {
    if Served(s, x) {
      SameSight(s, t, cfg, s.sessions[x].player);
    }
    hide Visible, IsDelta, SnapshotAfter;
  }

  lemma ServedElsewhere(s: RoomState, cfg: RoomConfig, done: set<SessionID>, x: SessionID)
    requires x !in done
    ensures var t := ServedAll(s, cfg, done);
      t == s.(snapshots := t.snapshots) && SnapshotOf(t, x) == SnapshotOf(s, x)
  {
    hide Refreshed;
  }

  lemma ServedAllIsBroadcast(s: RoomState, cfg: RoomConfig)
    ensures ServedAll(s, cfg, s.sessions.Keys).(dirty := {}) == Broadcast(s, cfg)
  {
    hide Refreshed;
    assert ServedAll(s, cfg, s.sessions.Keys).snapshots == Broadcast(s, cfg).snapshots;
  }

  lemma SendsIff(s: RoomState, c: RoomState, cfg: RoomConfig, order: seq<PlayerID>, sorted: seq<ClusterPlayer>,
                 batches: map<SessionID, PlayerDelta>)
    requires c == Clustered(s, cfg.cluster, order, sorted)
    requires !IsBroadcastTick(cfg, c.tick) ==> batches == map[]
    requires IsBroadcastTick(cfg, c.tick) ==> forall x :: Served(c, x) ==> x in batches
    requires IsBroadcastTick(cfg, c.tick) ==> forall x :: x in batches ==> DeltaFor(c, cfg, x, batches[x])
    ensures Replication.Sends(s, cfg, FinishTick(order, sorted), batches)
  {
    hide Clustered, IsDelta, Visible, IsBroadcastTick;
  }

  lemma RunOfOne(t: LockTable, lease: LockLease, ev: LockRuns.LockEvent)
    ensures LockRuns.Run(t, lease, [ev]) == LockRuns.Step(t, lease, ev)
  {
    hide LockRuns.Step;
    assert [ev][..0] == [];
  }

  // ----- Ticks are runs ----------------------------------------------------------

  /** The actions one tick performs. */
  ghost function TickActions(now: Time, cmds: seq<Command>, order: seq<PlayerID>,
                             sorted: seq<ClusterPlayer>): seq<Action>
  {
    [BeginTick(now)] + seq(|cmds|, i requires 0 <= i < |cmds| => Handle(cmds[i])) + [FinishTick(order, sorted)]
  }

  lemma {:induction false} DrainIsRun(cfg: RoomConfig, acts: seq<Action>, cmds: seq<Command>)
    requires LegalRun(cfg, acts)
    ensures var more := acts + seq(|cmds|, i requires 0 <= i < |cmds| => Handle(cmds[i]));
      After(cfg, more) == Drained(After(cfg, acts), cfg, cmds) && LegalRun(cfg, more)
    decreases |cmds|
  {
    hide Handled, After, LegalRun;
    var handles := seq(|cmds|, i requires 0 <= i < |cmds| => Handle(cmds[i]));
    if cmds == [] {
      assert acts + handles == acts;
    } else {
      var front := cmds[..|cmds| - 1];
      var before := seq(|front|, i requires 0 <= i < |front| => Handle(front[i]));
      DrainIsRun(cfg, acts, front);
      AppendAction(cfg, acts + before, Handle(cmds[|cmds| - 1]));
      assert acts + handles == acts + before + [Handle(cmds[|cmds| - 1])];
    }
  }

  /** A tick of the class continues a run of the model, so everything proved of runs holds of rooms. */
  lemma TickIsRun(cfg: RoomConfig, acts: seq<Action>, now: Time, cmds: seq<Command>, order: seq<PlayerID>,
                  sorted: seq<ClusterPlayer>)
    requires LegalRun(cfg, acts)
    requires Legal(Drained(Begun(After(cfg, acts), cfg, now), cfg, cmds), cfg, FinishTick(order, sorted))
    ensures var more := acts + TickActions(now, cmds, order, sorted);
      && LegalRun(cfg, more)
      && After(cfg, more) == Finished(Drained(Begun(After(cfg, acts), cfg, now), cfg, cmds), cfg, order, sorted)
  {
    hide Begun, Drained, Finished, After, LegalRun;
    var begun := acts + [BeginTick(now)];
    var handles := seq(|cmds|, i requires 0 <= i < |cmds| => Handle(cmds[i]));
    AppendAction(cfg, acts, BeginTick(now));
    DrainIsRun(cfg, begun, cmds);
    AppendAction(cfg, begun + handles, FinishTick(order, sorted));
    assert acts + TickActions(now, cmds, order, sorted) == begun + handles + [FinishTick(order, sorted)];
  }

  lemma AppendTick(acts: seq<Action>, a: Action)
    ensures InTick(acts + [a]) <==> a.BeginTick? || (!a.FinishTick? && InTick(acts))
    ensures WholeTicks(acts + [a]) <==> WholeTicks(acts) && (a.BeginTick? ==> !InTick(acts))
  {
    assert (acts + [a])[..|acts + [a]| - 1] == acts;
  }

  lemma {:induction false} DrainStaysInTick(acts: seq<Action>, cmds: seq<Command>)
    requires WholeTicks(acts) && InTick(acts)
    ensures var more := acts + seq(|cmds|, i requires 0 <= i < |cmds| => Handle(cmds[i]));
      WholeTicks(more) && InTick(more)
    decreases |cmds|
  {
    hide WholeTicks, InTick;
    var handles := seq(|cmds|, i requires 0 <= i < |cmds| => Handle(cmds[i]));
    if cmds == [] {
      assert acts + handles == acts;
    } else {
      var front := cmds[..|cmds| - 1];
      var before := seq(|front|, i requires 0 <= i < |front| => Handle(front[i]));
      DrainStaysInTick(acts, front);
      AppendTick(acts + before, Handle(cmds[|cmds| - 1]));
      assert acts + handles == acts + before + [Handle(cmds[|cmds| - 1])];
    }
  }

  /** Runs made of the class's ticks finish every tick they begin, as the recompute bound assumes. */
  lemma TickIsWhole(acts: seq<Action>, now: Time, cmds: seq<Command>, order: seq<PlayerID>, sorted: seq<ClusterPlayer>)
    requires WholeTicks(acts) && !InTick(acts)
    ensures var more := acts + TickActions(now, cmds, order, sorted); WholeTicks(more) && !InTick(more)
  {
    hide WholeTicks, InTick;
    var begun := acts + [BeginTick(now)];
    var handles := seq(|cmds|, i requires 0 <= i < |cmds| => Handle(cmds[i]));
    AppendTick(acts, BeginTick(now));
    DrainStaysInTick(begun, cmds);
    AppendTick(begun + handles, FinishTick(order, sorted));
    assert acts + TickActions(now, cmds, order, sorted) == begun + handles + [FinishTick(order, sorted)];
  }
}
