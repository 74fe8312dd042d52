// The room as a transition system: nine kinds of command and the end-of-tick
// work act on one state (internal/game/room/tick.go, internal/game/room/room.go).

module RoomModel {
  import opened Common
  import opened Geometry
  import opened KMeans
  import opened Locks
  import opened LockRuns
  import opened SpatialHash
  import opened Interest
  import opened Players
  import opened Delta

  datatype RoomConfig = RoomConfig(
    tickRateHz: int,
    broadcastRateHz: int,
    commandQueueSize: int,
    spatialCellSizeM: real,
    visualRadiusM: real,
    lease: LockLease,
    cluster: ClusterConfig)

  /** Fills in the defaults a room is built with. */
  function Effective(cfg: RoomConfig): (r: RoomConfig)
    ensures r.tickRateHz > 0 && r.broadcastRateHz > 0 && r.commandQueueSize > 0
    ensures r.spatialCellSizeM > 0.0 && r.visualRadiusM > 0.0 && r.lease.ttl > 0
    ensures r.cluster == cfg.cluster
    ensures cfg.tickRateHz > 0 ==> r.tickRateHz == cfg.tickRateHz
    ensures cfg.broadcastRateHz > 0 ==> r.broadcastRateHz == cfg.broadcastRateHz
    ensures cfg.commandQueueSize > 0 ==> r.commandQueueSize == cfg.commandQueueSize
    ensures cfg.spatialCellSizeM > 0.0 ==> r.spatialCellSizeM == cfg.spatialCellSizeM
    ensures cfg.visualRadiusM > 0.0 ==> r.visualRadiusM == cfg.visualRadiusM
    ensures cfg.lease.ttl > 0 ==> r.lease == cfg.lease
  {
    RoomConfig(
      if cfg.tickRateHz <= 0 then 20 else cfg.tickRateHz,
      if cfg.broadcastRateHz <= 0 then 10 else cfg.broadcastRateHz,
      if cfg.commandQueueSize <= 0 then 256 else cfg.commandQueueSize,
      if cfg.spatialCellSizeM <= 0.0 then 10.0 else cfg.spatialCellSizeM,
      if cfg.visualRadiusM <= 0.0 then 30.0 else cfg.visualRadiusM,
      if cfg.lease.ttl <= 0 then DEFAULT_LEASE else cfg.lease,
      cfg.cluster)
  }

  /** A room built from an empty config: 20 ticks and 10 broadcasts a second, a queue of 256 commands, 10 m
      cells, sight of 30 m, and leases of 10 s with at most 3 locks a user. */
  lemma DefaultSettings(cluster: ClusterConfig)
    ensures Effective(RoomConfig(0, 0, 0, 0.0, 0.0, LockLease(0, 0), cluster))
         == RoomConfig(20, 10, 256, 10.0, 30.0, LockLease(10_000_000_000, 3), cluster)
  {
  }

  datatype Attachment = Attachment(player: PlayerID, user: UserID)

  datatype RoomState = RoomState(
    sessions: map<SessionID, Attachment>,
    users: map<UserID, SessionID>,
    players: map<PlayerID, PlayerView>,
    indexed: map<PlayerID, Pos>,
    snapshots: map<SessionID, Snapshot>,
    dirty: set<PlayerID>,
    locks: LockTable,
    playerCount: int,
    cluster: ClusterOutput,
    previous: Option<ClusterOutput>,
    lastClusterTick: nat,
    maxMoveSq: real,
    membershipDirty: bool,
    tick: nat)

  const INITIAL :=
    RoomState(map[], map[], map[], map[], map[], {}, EMPTY_TABLE, 0, EMPTY_OUTPUT, None, 0, 0.0, false, 0)

  datatype Command =
    | Join(session: SessionID, player: PlayerID, user: UserID)
    | Leave(session: SessionID, player: PlayerID)
    | Disconnect(session: SessionID)
    | PlayerInput(player: PlayerID, transform: PlayerTransform, clientTime: int)
    | UpdatePlayerTransform(player: PlayerID, transform: PlayerTransform)
    | ObjectLockAcquire(object: ObjectID, user: UserID, session: SessionID, at: Time)
    | ObjectLockRefresh(object: ObjectID, user: UserID, at: Time)
    | ObjectLockRelease(object: ObjectID, user: UserID, at: Time)
    | ObjectUpdate(object: ObjectID, placed: Option<ObjectTransform>, state: Option<seq<int>>)
    | Malformed // unknown kind, or a payload of the wrong type

  // ----- Commands ----------------------------------------------------------------

  predicate JoinAccepted(s: RoomState, user: UserID) {
    user == "" || user !in s.users
  }

  function Joined(s: RoomState, session: SessionID, player: PlayerID, user: UserID): RoomState {
    if !JoinAccepted(s, user) then s
    else
      s.(sessions := s.sessions[session := Attachment(player, user)],
         users := if user != "" then s.users[user := session] else s.users,
         playerCount := s.playerCount + 1,
         membershipDirty := true,
         players := s.players[player := JOINED],
         indexed := s.indexed[player := Pos(0.0, 0.0)],
         snapshots := if session in s.snapshots then s.snapshots else s.snapshots[session := map[]])
  }

  /** A session goes, taking `player` with it. */
  function Detached(s: RoomState, session: SessionID, player: PlayerID): RoomState
    requires session in s.sessions
  {
    var user := s.sessions[session].user;
    s.(sessions := s.sessions - {session},
       users := if user != "" then s.users - {user} else s.users,
       playerCount := s.playerCount - 1,
       membershipDirty := true,
       players := s.players - {player},
       indexed := s.indexed - {player},
       snapshots := s.snapshots - {session},
       dirty := s.dirty - {player})
  }

  function Moved(s: RoomState, player: PlayerID, to: PlayerTransform): RoomState {
    if player !in s.players then s
    else
      var before := s.players[player];
      var after := before.Moved(to, s.tick);
      var distSq := SqDist(after.Ground(), before.Ground());
      s.(maxMoveSq := if distSq > s.maxMoveSq then distSq else s.maxMoveSq,
         players := s.players[player := after],
         indexed := if Within(after.Ground(), DEFAULT_MAX_WORLD_COORD) then s.indexed[player := after.Ground()]
                    else s.indexed,
         dirty := s.dirty + {player})
  }

  predicate ValidInput(transform: PlayerTransform, clientTime: int) {
    transform.rotation != Quat(0.0, 0.0, 0.0, 0.0) && clientTime > 0
  }

  /** What a command asks of the lock table, as lock events in order. */
  function LockEventsOf(cmd: Command): seq<LockEvent> {
    match cmd
    case Leave(session, _) => [SessionEnd(session)]
    case Disconnect(session) => [SessionEnd(session)]
    case ObjectLockAcquire(o, user, session, at) => [TryAcquire(o, user, session, at)]
    case ObjectLockRefresh(o, user, at) => [TryRefresh(o, user, at)]
    case ObjectLockRelease(o, user, at) => [TryRelease(o, user, at)]
    case ObjectUpdate(o, placed, state) =>
      (if placed.Some? then [UpdateTransform(o, placed.value)] else [])
      + (if state.Some? then [UpdateState(o, state.value)] else [])
    case _ => []
  }

  /** The effect on everything but the locks. */
  function WithoutLocks(s: RoomState, cmd: Command): RoomState {
    match cmd
    case Join(session, player, user) => Joined(s, session, player, user)
    case Leave(session, player) => if session in s.sessions then Detached(s, session, player) else s
    case Disconnect(session) => if session in s.sessions then Detached(s, session, s.sessions[session].player) else s
    case PlayerInput(player, transform, clientTime) =>
      if ValidInput(transform, clientTime) then Moved(s, player, transform) else s
    case UpdatePlayerTransform(player, transform) => Moved(s, player, transform)
    case _ => s
  }

  ghost function Handled(s: RoomState, cfg: RoomConfig, cmd: Command): RoomState {
    WithoutLocks(s, cmd).(locks := Run(s.locks, cfg.lease, LockEventsOf(cmd)))
  }

  // ----- Ticks -------------------------------------------------------------------

  ghost function Begun(s: RoomState, cfg: RoomConfig, now: Time): RoomState {
    s.(tick := Succ32(s.tick), locks := Run(s.locks, cfg.lease, [Sweep(now)]))
  }

  predicate ShouldRecompute(s: RoomState, cfg: ClusterConfig)
    requires s.tick < UINT32 && s.lastClusterTick < UINT32
  {
    && cfg.enabled
    && (|| Sub32(s.tick, s.lastClusterTick) >= cfg.reclusterIntervalTicks % UINT32
        || cfg.movementThreshold < 0.0 || s.maxMoveSq > Square(cfg.movementThreshold)
        || s.membershipDirty)
  }

  /** The players as fed to the allocator, in the order the map iteration chose. */
  function ClusterInput(players: map<PlayerID, PlayerView>, order: seq<PlayerID>): (r: seq<ClusterPlayer>)
    requires forall id :: id in order ==> id in players
    ensures |r| == |order|
  {
    seq(|order|, i requires 0 <= i < |order| => ClusterPlayer(order[i], players[order[i]].Ground()))
  }

  /** `order` is a possible map iteration and `sorted` a possible sort of the valid players. */
  ghost predicate PossibleOrder(s: RoomState, cfg: ClusterConfig, order: seq<PlayerID>, sorted: seq<ClusterPlayer>)
    requires ValidConfig(cfg)
  {
    && Enumerates(order, s.players.Keys)
    && IsSortOf(sorted, ValidPlayers(ClusterInput(s.players, order), cfg.maxPlayersPerRoom))
    && |sorted| == |ValidPlayers(ClusterInput(s.players, order), cfg.maxPlayersPerRoom)|
  }

  function Recomputed(s: RoomState, cfg: ClusterConfig, order: seq<PlayerID>, sorted: seq<ClusterPlayer>): RoomState
    requires ValidConfig(cfg) && forall id :: id in order ==> id in s.players
    requires |sorted| == |ValidPlayers(ClusterInput(s.players, order), cfg.maxPlayersPerRoom)|
  {
    var out := Clustering(ValidPlayers(ClusterInput(s.players, order), cfg.maxPlayersPerRoom), sorted, cfg, s.previous);
    s.(cluster := out, previous := Some(out), lastClusterTick := s.tick, maxMoveSq := 0.0, membershipDirty := false)
  }

  predicate IsBroadcastTick(cfg: RoomConfig, tick: nat) {
    && cfg.broadcastRateHz > 0 && cfg.tickRateHz > 0
    && (|| cfg.broadcastRateHz >= cfg.tickRateHz
        || (var ratio := (cfg.tickRateHz / cfg.broadcastRateHz) % UINT32;
            ratio == 0 || tick % ratio == 0))
  }

  /** The players a session's own player sees; outside cluster mode an absent player sees nobody. */
  ghost function Visible(s: RoomState, cfg: RoomConfig, player: PlayerID): set<PlayerID> {
    if cfg.cluster.enabled then ClusterMates(s.cluster, player)
    else if player !in s.players then {}
    else VisibleAround(s.indexed, DEFAULT_MAX_WORLD_COORD, player, s.players[player].Ground(), cfg.visualRadiusM)
  }

  ghost function ClusterMates(cluster: ClusterOutput, player: PlayerID): set<PlayerID> {
    if player !in cluster.assignments then {}
    else (set id | id in MembersIn(cluster.clusters, cluster.assignments[player])) - {player}
  }

  /** Sessions that get a batch: attached ones whose player is in the room. */
  ghost predicate Served(s: RoomState, session: SessionID) {
    session in s.sessions && s.sessions[session].player in s.players
  }

  function SnapshotOf(s: RoomState, session: SessionID): Snapshot {
    if session in s.snapshots then s.snapshots[session] else map[]
  }

  /** A served session's snapshot once its delta is sent. */
  ghost function Refreshed(s: RoomState, cfg: RoomConfig, session: SessionID): Snapshot
    requires Served(s, session)
  {
    SnapshotAfter(Visible(s, cfg, s.sessions[session].player), SnapshotOf(s, session), s.players)
  }

  ghost function Broadcast(s: RoomState, cfg: RoomConfig): RoomState {
    s.(snapshots :=
         map session |
           session in s.snapshots.Keys + s.sessions.Keys && (session in s.snapshots || Served(s, session)) ::
         if Served(s, session) then Refreshed(s, cfg, session) else s.snapshots[session],
       dirty := {})
  }

  // ----- Runs --------------------------------------------------------------------

  /** Steps of the room loop, plus object creation by room management code. */
  datatype Action =
    | BeginTick(now: Time)
    | Handle(cmd: Command)
    | FinishTick(order: seq<PlayerID>, sorted: seq<ClusterPlayer>)
    | MakeObject(object: ObjectID, kind: string, placed: ObjectTransform)

  /** Tick counters stay in uint32. */
  ghost predicate TicksInRange(s: RoomState) {
    s.tick < UINT32 && s.lastClusterTick < UINT32
  }

  /** A recompute is due and will not be refused. */
  ghost predicate Due(s: RoomState, cfg: ClusterConfig) {
    TicksInRange(s) && ShouldRecompute(s, cfg) && ValidConfig(cfg)
  }

  ghost function Clustered(s: RoomState, cfg: ClusterConfig, order: seq<PlayerID>,
                           sorted: seq<ClusterPlayer>): RoomState
  {
    if Due(s, cfg) && PossibleOrder(s, cfg, order, sorted) then Recomputed(s, cfg, order, sorted) else s
  }

  ghost function Finished(s: RoomState, cfg: RoomConfig, order: seq<PlayerID>, sorted: seq<ClusterPlayer>): RoomState {
    var c := Clustered(s, cfg.cluster, order, sorted);
    if IsBroadcastTick(cfg, c.tick) then Broadcast(c, cfg) else c
  }

  ghost function Next(s: RoomState, cfg: RoomConfig, a: Action): RoomState {
    match a
    case BeginTick(now) => Begun(s, cfg, now)
    case Handle(cmd) => Handled(s, cfg, cmd)
    case FinishTick(order, sorted) => Finished(s, cfg, order, sorted)
    case MakeObject(id, kind, placed) => s.(locks := Run(s.locks, cfg.lease, [CreateObject(id, kind, placed)]))
  }

  ghost predicate Legal(s: RoomState, cfg: RoomConfig, a: Action) {
    a.FinishTick? && Due(s, cfg.cluster) ==> PossibleOrder(s, cfg.cluster, a.order, a.sorted)
  }

  /** The room after a sequence of actions. */
  ghost function After(cfg: RoomConfig, acts: seq<Action>): RoomState {
    if acts == [] then INITIAL else Next(After(cfg, acts[..|acts| - 1]), cfg, acts[|acts| - 1])
  }

  ghost predicate LegalRun(cfg: RoomConfig, acts: seq<Action>) {
    acts == [] || (LegalRun(cfg, acts[..|acts| - 1]) && Legal(After(cfg, acts[..|acts| - 1]), cfg, acts[|acts| - 1]))
  }

  lemma AppendAction(cfg: RoomConfig, acts: seq<Action>, a: Action)
    ensures After(cfg, acts + [a]) == Next(After(cfg, acts), cfg, a)
    ensures LegalRun(cfg, acts + [a]) <==> LegalRun(cfg, acts) && Legal(After(cfg, acts), cfg, a)
  {
    hide Next, Legal;
    assert (acts + [a])[..|acts + [a]| - 1] == acts;
  }
}
