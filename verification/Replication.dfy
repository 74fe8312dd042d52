// End to end: a client that applies the deltas of its session holds, after each
// broadcast, exactly the visible part of the authoritative state.

module Replication {
  import opened Common
  import opened Geometry
  import opened KMeans
  import opened Delta
  import LockRuns
  import opened RoomModel
  import opened RoomInvariants
  import opened ClusterSchedule

  type Batches = map<SessionID, PlayerDelta>

  /** The clients of the attached sessions, everyone in the room at the last broadcast, and whether
      the run has so far kept to the rules replication relies on. */
  datatype Replica = Replica(clients: map<SessionID, Client>, shown: set<PlayerID>, trusted: bool)

  const NOBODY := Replica(map[], {}, true)

  /** The state a tick broadcasts from. */
  ghost function BroadcastState(s: RoomState, cfg: RoomConfig, a: Action): RoomState {
    if a.FinishTick? then Clustered(s, cfg.cluster, a.order, a.sorted) else s
  }

  ghost predicate Broadcasts(s: RoomState, cfg: RoomConfig, a: Action) {
    a.FinishTick? && IsBroadcastTick(cfg, BroadcastState(s, cfg, a).tick)
  }

  /** A broadcast sends every served session a delta for its visible players, stamped with the tick. */
  ghost predicate Sends(s: RoomState, cfg: RoomConfig, a: Action, batches: Batches) {
    if Broadcasts(s, cfg, a) then
      var c := BroadcastState(s, cfg, a);
      forall x :: x in c.sessions && Served(c, x) ==>
        && x in batches && batches[x].tick == c.tick
        && IsDelta(batches[x], Visible(c, cfg, c.sessions[x].player), SnapshotOf(c, x), c.players)
    else batches == map[]
  }

  /** The rules: a joining player ID is neither in the room nor was it at the last broadcast, a leave names
      its own player, versions do not wrap. */
  ghost predicate ByTheRules(s: RoomState, shown: set<PlayerID>, a: Action) {
    a.Handle? ==> match a.cmd
      case Join(_, player, user) => JoinAccepted(s, user) ==> player !in s.players && player !in shown
      case Leave(session, player) => session in s.sessions ==> s.sessions[session].player == player
      case PlayerInput(p, _, _) => p in s.players ==> s.players[p].version + 1 < UINT32
      case UpdatePlayerTransform(p, _) => p in s.players ==> s.players[p].version + 1 < UINT32
      case _ => true
  }

  /** A session that attaches starts empty; a detached client is gone; served clients apply their batch. */
  ghost function Followed(r: Replica, s: RoomState, cfg: RoomConfig, a: Action, batches: Batches): Replica {
    var t := Next(s, cfg, a);
    Replica(
      map x | x in t.snapshots ::
        var client := if x in r.clients then r.clients[x] else map[];
        if Broadcasts(s, cfg, a) && Served(BroadcastState(s, cfg, a), x) && x in batches
        then Apply(client, batches[x])
        else client,
      if Broadcasts(s, cfg, a) then t.players.Keys else r.shown,
      r.trusted && ByTheRules(s, r.shown, a))
  }

  ghost function ReplicaAfter(cfg: RoomConfig, acts: seq<Action>, sent: seq<Batches>): Replica
    requires |sent| == |acts|
  {
    if acts == [] then NOBODY
    else
      var last := |acts| - 1;
      Followed(ReplicaAfter(cfg, acts[..last], sent[..last]), After(cfg, acts[..last]), cfg, acts[last], sent[last])
  }

  ghost predicate SentRun(cfg: RoomConfig, acts: seq<Action>, sent: seq<Batches>) {
    |sent| == |acts| &&
    (acts == [] || (
      var last := |acts| - 1;
      SentRun(cfg, acts[..last], sent[..last]) && Sends(After(cfg, acts[..last]), cfg, acts[last], sent[last])))
  }

  // ----- The invariant -----------------------------------------------------------

  /** A client's entry is the current state or an older version of it. */
  ghost predicate NotNewer(client: Client, players: Client) {
    forall p :: p in client && p in players ==> client[p] == players[p] || client[p].version < players[p].version
  }

  ghost predicate Following(r: Replica, s: RoomState) {
    && r.clients.Keys == s.snapshots.Keys
    && (forall x :: x in r.clients ==> Tracks(r.clients[x], s.snapshots[x]))
  }

  ghost predicate Attended(s: RoomState) {
    && (forall x :: x in s.sessions ==> s.sessions[x].player in s.players)
    && (forall x, y :: x in s.sessions && y in s.sessions && s.sessions[x].player == s.sessions[y].player ==> x == y)
  }

  ghost predicate Faithful(r: Replica, s: RoomState) {
    && (forall x :: x in r.clients ==> r.clients[x].Keys <= r.shown && NotNewer(r.clients[x], s.players))
    && Attended(s)
  }

  ghost predicate Consistent(r: Replica, s: RoomState) {
    Following(r, s) && (r.trusted ==> Faithful(r, s))
  }

  lemma FollowedBasics(r: Replica, s: RoomState, cfg: RoomConfig, a: Action, batches: Batches)
    ensures var r', t := Followed(r, s, cfg, a, batches), Next(s, cfg, a);
      && r'.shown == (if Broadcasts(s, cfg, a) then t.players.Keys else r.shown)
      && r'.trusted == (r.trusted && ByTheRules(s, r.shown, a))
      && r'.clients.Keys == t.snapshots.Keys
  {
    hide Next, Broadcasts, ByTheRules, Served;
  }

  // ----- Commands ----------------------------------------------------------------

  // Outside broadcasts clients and snapshots come and go together.
  lemma QuietFollowing(r: Replica, s: RoomState, cfg: RoomConfig, a: Action, batches: Batches)
    requires Following(r, s) && !Broadcasts(s, cfg, a)
    requires var t := Next(s, cfg, a);
      forall x :: x in t.snapshots ==>
        t.snapshots[x] == if x in s.snapshots then s.snapshots[x] else map[]
    ensures Following(Followed(r, s, cfg, a, batches), Next(s, cfg, a))
    ensures forall x :: x in Followed(r, s, cfg, a, batches).clients ==>
      var client := Followed(r, s, cfg, a, batches).clients[x];
      client == map[] || (x in r.clients && client == r.clients[x])
  {
    hide Next, Broadcasts;
  }

  // Snapshots as a command leaves them.
  lemma HandledSnapshots(s: RoomState, cfg: RoomConfig, cmd: Command)
    ensures var t := Handled(s, cfg, cmd);
      forall x :: x in t.snapshots ==>
        t.snapshots[x] == if x in s.snapshots then s.snapshots[x] else map[]
  {
    hide LockEventsOf, LockRuns.Run, SqDist;
  }

  lemma FinishedSnapshots(s: RoomState, cfg: RoomConfig, a: Action)
    requires a.FinishTick? && !Broadcasts(s, cfg, a)
    ensures Next(s, cfg, a).snapshots == s.snapshots && Next(s, cfg, a).players == s.players
    ensures Next(s, cfg, a).sessions == s.sessions
  {
    hide Clustered, IsBroadcastTick;
    ClusteredKeeps(s, cfg.cluster, a.order, a.sorted);
  }

  // How a rule-abiding command changes players and sessions.
  lemma JoinedAttended(s: RoomState, session: SessionID, player: PlayerID, user: UserID)
    requires Attended(s) && player !in s.players
    ensures Attended(Joined(s, session, player, user))
  {
  }

  lemma DetachedAttended(s: RoomState, session: SessionID)
    requires Attended(s) && session in s.sessions
    ensures Attended(Detached(s, session, s.sessions[session].player))
  {
  }

  lemma HandledAttended(s: RoomState, cfg: RoomConfig, cmd: Command, shown: set<PlayerID>)
    requires Attended(s) && ByTheRules(s, shown, Handle(cmd))
    ensures Attended(Handled(s, cfg, cmd))
  {
    hide LockEventsOf, LockRuns.Run, SqDist, Joined, Detached;
    match cmd {
      case Join(session, player, user) =>
        if JoinAccepted(s, user) { JoinedAttended(s, session, player, user); }
        else { JoinRefused(s, session, player, user); }
      case Leave(session, player) => if session in s.sessions { DetachedAttended(s, session); }
      case Disconnect(session) => if session in s.sessions { DetachedAttended(s, session); }
      case _ =>
    }
  }

  /** A player's version only grows, and a player who appears was not at the last broadcast. */
  ghost predicate Advances(before: Client, after: Client, shown: set<PlayerID>) {
    forall p :: p in after ==>
      if p in before then after[p] == before[p] || before[p].version < after[p].version else p !in shown
  }

  lemma HandledAdvances(s: RoomState, cfg: RoomConfig, cmd: Command, shown: set<PlayerID>)
    requires ByTheRules(s, shown, Handle(cmd))
    ensures Advances(s.players, Handled(s, cfg, cmd).players, shown)
  {
    hide LockEventsOf, LockRuns.Run, SqDist;
  }

  lemma NotNewerAdvances(client: Client, before: Client, after: Client, shown: set<PlayerID>)
    requires NotNewer(client, before) && client.Keys <= shown && Advances(before, after, shown)
    ensures NotNewer(client, after)
  {
  }

  lemma HandledConsistent(r: Replica, s: RoomState, cfg: RoomConfig, cmd: Command, batches: Batches)
    requires Consistent(r, s)
    ensures Consistent(Followed(r, s, cfg, Handle(cmd), batches), Handled(s, cfg, cmd))
  {
    var a := Handle(cmd);
    var r', t := Followed(r, s, cfg, a, batches), Handled(s, cfg, cmd);
    HandledSnapshots(s, cfg, cmd);
    hide Handled, Tracks, ByTheRules, Advances, NotNewer, Followed, Attended;
    FollowedBasics(r, s, cfg, a, batches);
    QuietFollowing(r, s, cfg, a, batches);
    if r'.trusted {
      HandledAttended(s, cfg, cmd, r.shown);
      HandledAdvances(s, cfg, cmd, r.shown);
      forall x | x in r'.clients
        ensures r'.clients[x].Keys <= r'.shown && NotNewer(r'.clients[x], t.players)
      {
        if r'.clients[x] == map[] {
          EmptyNotNewer(t.players);
        } else {
          NotNewerAdvances(r.clients[x], s.players, t.players, r.shown);
        }
      }
    }
  }

  lemma EmptyNotNewer(players: Client)
    ensures NotNewer(map[], players)
  {
  }

  // ----- Broadcasts --------------------------------------------------------------

  lemma DeliveredTracks(cfg: RoomConfig, c: RoomState, x: SessionID, client: Client, d: PlayerDelta)
    requires x in c.snapshots && Served(c, x) && Tracks(client, c.snapshots[x])
    requires IsDelta(d, Visible(c, cfg, c.sessions[x].player), c.snapshots[x], c.players)
    ensures x in Broadcast(c, cfg).snapshots && Tracks(Apply(client, d), Broadcast(c, cfg).snapshots[x])
  {
    hide IsDelta, Visible;
    DeltaKeepsTracking(client, d, Visible(c, cfg, c.sessions[x].player), c.snapshots[x], c.players);
  }

  lemma BroadcastFacts(s: RoomState, cfg: RoomConfig, a: Action)
    requires Linked(s) && Broadcasts(s, cfg, a)
    ensures var c := BroadcastState(s, cfg, a);
      && Linked(c) && Next(s, cfg, a) == Broadcast(c, cfg)
      && c.snapshots == s.snapshots && c.sessions == s.sessions && c.players == s.players
      && Broadcast(c, cfg).snapshots.Keys == s.snapshots.Keys
      && Broadcast(c, cfg).players == s.players && Broadcast(c, cfg).sessions == s.sessions
      && forall x :: x in c.snapshots && !Served(c, x) ==> Broadcast(c, cfg).snapshots[x] == c.snapshots[x]
  {
    hide Clustered, Visible, SnapshotAfter, IsBroadcastTick;
    ClusteredKeeps(s, cfg.cluster, a.order, a.sorted);
    var c := BroadcastState(s, cfg, a);
    assert Linked(c) by { ClusteredLinked(s, cfg.cluster, a.order, a.sorted); }
  }

  lemma ClusteredLinked(s: RoomState, cfg: ClusterConfig, order: seq<PlayerID>, sorted: seq<ClusterPlayer>)
    requires Linked(s)
    ensures Linked(Clustered(s, cfg, order, sorted))
  {
    hide Clustering, PossibleOrder, ShouldRecompute;
  }

  // Every served client tracks its new snapshot; the others keep both.
  lemma BroadcastFollowing(r: Replica, s: RoomState, cfg: RoomConfig, a: Action, batches: Batches)
    requires Linked(s) && Following(r, s) && Broadcasts(s, cfg, a) && Sends(s, cfg, a, batches)
    ensures Following(Followed(r, s, cfg, a, batches), Next(s, cfg, a))
  {
    hide Linked, Broadcasts, Sends, Followed, Next, BroadcastState, Broadcast, Served, Tracks;
    BroadcastFacts(s, cfg, a);
    FollowedBasics(r, s, cfg, a, batches);
    var r' := Followed(r, s, cfg, a, batches);
    forall x | x in r'.clients
      ensures Tracks(r'.clients[x], Next(s, cfg, a).snapshots[x])
    {
      FollowedClient(r, s, cfg, a, batches, x);
      if Served(BroadcastState(s, cfg, a), x) {
        DeliveredTracks(cfg, BroadcastState(s, cfg, a), x, r.clients[x], batches[x]);
      }
    }
  }

  // What a broadcast does to one attached client.
  lemma FollowedClient(r: Replica, s: RoomState, cfg: RoomConfig, a: Action, batches: Batches, x: SessionID)
    requires Linked(s) && Following(r, s) && Broadcasts(s, cfg, a) && Sends(s, cfg, a, batches) && x in s.snapshots
    ensures var c, r' := BroadcastState(s, cfg, a), Followed(r, s, cfg, a, batches);
      && x in r'.clients && x in r.clients && x in c.snapshots && SnapshotOf(c, x) == c.snapshots[x]
      && (Served(c, x) ==>
            && x in batches && IsDelta(batches[x], Visible(c, cfg, c.sessions[x].player), c.snapshots[x], c.players)
            && r'.clients[x] == Apply(r.clients[x], batches[x]))
      && (!Served(c, x) ==> r'.clients[x] == r.clients[x])
  {
    BroadcastFacts(s, cfg, a);
    FollowedBasics(r, s, cfg, a, batches);
    hide Next, BroadcastState, Broadcast, Linked, Tracks, IsDelta, Visible, Apply;
  }

  /** A served client of a trusted run ends up with exactly its visible players. */
  lemma DeliveredExact(r: Replica, s: RoomState, cfg: RoomConfig, a: Action, batches: Batches, x: SessionID)
    requires Linked(s) && ClustersKnown(s, cfg.cluster) && Legal(s, cfg, a)
    requires Following(r, s) && Faithful(r, s) && Broadcasts(s, cfg, a) && Sends(s, cfg, a, batches)
    requires x in s.sessions
    ensures var c, r' := BroadcastState(s, cfg, a), Followed(r, s, cfg, a, batches);
      && x in r'.clients && x in c.sessions && Served(c, x)
      && r'.clients[x] == Restrict(c.players, Visible(c, cfg, c.sessions[x].player))
  {
    BroadcastFacts(s, cfg, a);
    FollowedClient(r, s, cfg, a, batches, x);
    var c := BroadcastState(s, cfg, a);
    var p := c.sessions[x].player;
    assert Served(c, x);
    VisiblePresent(s, cfg, a.order, a.sorted, p);
    var client := r.clients[x];
    VersionsTell(client, Visible(c, cfg, p), c.players);
    hide IsDelta, Visible, Apply, Legal, Followed, Restrict, VersionsDistinguish;
    DeltaSynchronisesExactly(client, batches[x], Visible(c, cfg, p), c.snapshots[x], c.players);
  }

  lemma VersionsTell(client: Client, visible: set<PlayerID>, players: Client)
    requires NotNewer(client, players)
    ensures VersionsDistinguish(client, visible, players)
  {
  }

  lemma BroadcastFaithful(r: Replica, s: RoomState, cfg: RoomConfig, a: Action, batches: Batches)
    requires Linked(s) && ClustersKnown(s, cfg.cluster) && Legal(s, cfg, a)
    requires Following(r, s) && Faithful(r, s) && Broadcasts(s, cfg, a) && Sends(s, cfg, a, batches)
    ensures Faithful(Followed(r, s, cfg, a, batches), Next(s, cfg, a))
  {
    hide Followed, Next, Broadcasts, BroadcastState, Broadcast, Sends, Legal, ByTheRules, ClustersKnown, Visible;
    hide NotNewer, Restrict, Served, Tracks;
    FollowedBasics(r, s, cfg, a, batches);
    BroadcastFacts(s, cfg, a);
    var r', t := Followed(r, s, cfg, a, batches), Next(s, cfg, a);
    forall x | x in r'.clients
      ensures r'.clients[x].Keys <= r'.shown && NotNewer(r'.clients[x], t.players)
    {
      DeliveredExact(r, s, cfg, a, batches, x);
      RestrictNotNewer(s.players, Visible(BroadcastState(s, cfg, a), cfg, s.sessions[x].player));
    }
  }

  lemma BroadcastConsistent(r: Replica, s: RoomState, cfg: RoomConfig, a: Action, batches: Batches)
    requires Linked(s) && ClustersKnown(s, cfg.cluster) && Legal(s, cfg, a)
    requires Consistent(r, s) && Broadcasts(s, cfg, a) && Sends(s, cfg, a, batches)
    ensures Consistent(Followed(r, s, cfg, a, batches), Next(s, cfg, a))
  {
    hide Followed, Next, Broadcasts, Sends, Legal, ByTheRules, ClustersKnown, Following, Faithful;
    FollowedBasics(r, s, cfg, a, batches);
    BroadcastFollowing(r, s, cfg, a, batches);
    if r.trusted {
      BroadcastFaithful(r, s, cfg, a, batches);
    }
  }

  lemma RestrictNotNewer(players: Client, visible: set<PlayerID>)
    ensures NotNewer(Restrict(players, visible), players) && Restrict(players, visible).Keys <= players.Keys
  {
  }

  // ----- Runs --------------------------------------------------------------------

  // Anything but a command or a broadcast leaves players, sessions and snapshots alone.
  lemma QuietNext(s: RoomState, cfg: RoomConfig, a: Action)
    requires !a.Handle? && !Broadcasts(s, cfg, a)
    ensures var t := Next(s, cfg, a);
      t.players == s.players && t.sessions == s.sessions && t.snapshots == s.snapshots
  {
    if a.FinishTick? {
      FinishedSnapshots(s, cfg, a);
    }
    hide Finished, LockRuns.Run, Broadcasts;
  }

  lemma QuietClients(r: Replica, s: RoomState, cfg: RoomConfig, a: Action, batches: Batches)
    requires !Broadcasts(s, cfg, a) && r.clients.Keys == s.snapshots.Keys && Next(s, cfg, a).snapshots == s.snapshots
    ensures Followed(r, s, cfg, a, batches).clients == r.clients
  {
    hide Next, Broadcasts, ByTheRules;
  }

  lemma QuietConsistent(r: Replica, s: RoomState, cfg: RoomConfig, a: Action, batches: Batches)
    requires !a.Handle? && !Broadcasts(s, cfg, a) && Consistent(r, s)
    ensures Consistent(Followed(r, s, cfg, a, batches), Next(s, cfg, a))
  {
    hide Next, Broadcasts, ByTheRules, Followed, NotNewer, Tracks;
    FollowedBasics(r, s, cfg, a, batches);
    QuietNext(s, cfg, a);
    QuietClients(r, s, cfg, a, batches);
  }

  lemma NextConsistent(r: Replica, s: RoomState, cfg: RoomConfig, a: Action, batches: Batches)
    requires Linked(s) && ClustersKnown(s, cfg.cluster) && Legal(s, cfg, a)
    requires Consistent(r, s) && Sends(s, cfg, a, batches)
    ensures Consistent(Followed(r, s, cfg, a, batches), Next(s, cfg, a))
  {
    hide Consistent, Followed, Broadcasts, Sends, Legal, Handled, Finished, LockRuns.Run;
    if a.Handle? {
      HandledConsistent(r, s, cfg, a.cmd, batches);
    } else if Broadcasts(s, cfg, a) {
      BroadcastConsistent(r, s, cfg, a, batches);
    } else {
      QuietConsistent(r, s, cfg, a, batches);
    }
  }

  lemma {:induction false} ReplicaConsistent(cfg: RoomConfig, acts: seq<Action>, sent: seq<Batches>)
    requires LegalRun(cfg, acts) && SentRun(cfg, acts, sent)
    ensures Consistent(ReplicaAfter(cfg, acts, sent), After(cfg, acts))
  {
    if acts != [] {
      var last := |acts| - 1;
      var front, before := acts[..last], sent[..last];
      ReplicaConsistent(cfg, front, before);
      TablesStayLinked(cfg, front);
      ClustersStayKnown(cfg, front);
      NextConsistent(ReplicaAfter(cfg, front, before), After(cfg, front), cfg, acts[last], sent[last]);
      hide Consistent, Next, Followed;
    }
  }

  /** After every broadcast of every run, a client that is served holds exactly the players its own player
      sees, in their current state, if and only if what it held before carried no current version of a
      visible player in another state. */
  lemma ReplicaExactlyWhen(cfg: RoomConfig, acts: seq<Action>, sent: seq<Batches>, x: SessionID)
    requires LegalRun(cfg, acts) && SentRun(cfg, acts, sent) && acts != []
    requires Broadcasts(After(cfg, acts[..|acts| - 1]), cfg, acts[|acts| - 1])
    requires Served(After(cfg, acts), x)
    ensures var last := |acts| - 1;
      var s, r := After(cfg, acts), ReplicaAfter(cfg, acts, sent);
      var before := ReplicaAfter(cfg, acts[..last], sent[..last]);
      var visible := Visible(s, cfg, s.sessions[x].player);
      && x in before.clients && x in r.clients
      && (r.clients[x] == Restrict(s.players, visible) <==> VersionsDistinguish(before.clients[x], visible, s.players))
  {
    var last := |acts| - 1;
    var s, r := After(cfg, acts[..last]), ReplicaAfter(cfg, acts[..last], sent[..last]);
    ReplicaConsistent(cfg, acts[..last], sent[..last]);
    TablesStayLinked(cfg, acts[..last]);
    ClustersStayKnown(cfg, acts[..last]);
    assert After(cfg, acts) == Next(s, cfg, acts[last]);
    assert ReplicaAfter(cfg, acts, sent) == Followed(r, s, cfg, acts[last], sent[last]);
    assert Legal(s, cfg, acts[last]) && Sends(s, cfg, acts[last], sent[last]);
    hide After, ReplicaAfter, LegalRun, SentRun, VersionsDistinguish, Restrict;
    DeliveredExactlyWhen(r, s, cfg, acts[last], sent[last], x);
  }

  lemma DeliveredExactlyWhen(r: Replica, s: RoomState, cfg: RoomConfig, a: Action, batches: Batches, x: SessionID)
    requires Linked(s) && ClustersKnown(s, cfg.cluster) && Legal(s, cfg, a)
    requires Following(r, s) && Broadcasts(s, cfg, a) && Sends(s, cfg, a, batches)
    requires Served(Next(s, cfg, a), x)
    ensures var t, r' := Next(s, cfg, a), Followed(r, s, cfg, a, batches);
      var visible := Visible(t, cfg, t.sessions[x].player);
      && x in r.clients && x in r'.clients
      && (r'.clients[x] == Restrict(t.players, visible) <==> VersionsDistinguish(r.clients[x], visible, t.players))
  {
    BroadcastFacts(s, cfg, a);
    FollowedClient(r, s, cfg, a, batches, x);
    var c := BroadcastState(s, cfg, a);
    var p := c.sessions[x].player;
    VisiblePresent(s, cfg, a.order, a.sorted, p);
    BroadcastKeeps(c, cfg);
    SameSight(c, Broadcast(c, cfg), cfg, p);
    hide IsDelta, Visible, Apply, Legal, Followed, Restrict, VersionsDistinguish, Linked, ClustersKnown;
    DeltaSynchronisesExactly(r.clients[x], batches[x], Visible(c, cfg, p), c.snapshots[x], c.players);
  }

  /** In every run in which no player ID joins that is in the room or was at the last broadcast, leaves name
      their own player and versions do not wrap, each attached client holds after every broadcast exactly the
      players its own player sees, with their current transforms and versions. */
  lemma ReplicaExact(cfg: RoomConfig, acts: seq<Action>, sent: seq<Batches>, x: SessionID)
    requires LegalRun(cfg, acts) && SentRun(cfg, acts, sent) && acts != []
    requires Broadcasts(After(cfg, acts[..|acts| - 1]), cfg, acts[|acts| - 1])
    requires ReplicaAfter(cfg, acts, sent).trusted && x in After(cfg, acts).sessions
    ensures var s, r := After(cfg, acts), ReplicaAfter(cfg, acts, sent);
      && x in r.clients && s.sessions[x].player in s.players
      && r.clients[x] == Restrict(s.players, Visible(s, cfg, s.sessions[x].player))
  {
    var last := |acts| - 1;
    var s, r := After(cfg, acts[..last]), ReplicaAfter(cfg, acts[..last], sent[..last]);
    ReplicaConsistent(cfg, acts[..last], sent[..last]);
    TablesStayLinked(cfg, acts[..last]);
    ClustersStayKnown(cfg, acts[..last]);
    assert After(cfg, acts) == Next(s, cfg, acts[last]);
    assert ReplicaAfter(cfg, acts, sent) == Followed(r, s, cfg, acts[last], sent[last]);
    assert Legal(s, cfg, acts[last]) && Sends(s, cfg, acts[last], sent[last]) && r.trusted;
    hide After, ReplicaAfter, LegalRun, SentRun;
    BroadcastFacts(s, cfg, acts[last]);
    DeliveredExact(r, s, cfg, acts[last], sent[last], x);
    var c := BroadcastState(s, cfg, acts[last]);
    BroadcastKeeps(c, cfg);
    SameSight(c, Broadcast(c, cfg), cfg, c.sessions[x].player);
  }
}
