// Player records, per-session snapshots, and the deltas computed from them
// (internal/game/player, internal/game/delta).

module Players {
  import opened Common
  import opened Geometry

  datatype PlayerTransform = PlayerTransform(position: Vec3, rotation: Quat, tick: nat)

  const IDENTITY := Quat(0.0, 0.0, 0.0, 1.0)

  const SPAWN := PlayerTransform(Vec3(0.0, 0.0, 0.0), IDENTITY, 0)

  /** What other parts of the room may see of a player: a transform and its version. */
  datatype PlayerView = PlayerView(transform: PlayerTransform, version: nat) {
    function Ground(): Pos {
      Pos(transform.position.x, transform.position.z)
    }

    function Moved(to: PlayerTransform, at: nat): PlayerView {
      PlayerView(to.(tick := at), Succ32(version))
    }
  }

  const JOINED := PlayerView(SPAWN, 0)

  datatype PlayerStatus = Joining | Active | Leaving | Gone

  class PlayerState {
    const id: PlayerID
    const user: UserID
    var status: PlayerStatus
    var transform: PlayerTransform
    var version: nat

    constructor (id: PlayerID, user: UserID)
      ensures this.id == id && this.user == user && status == Joining && Snapshot() == JOINED
    {
      this.id := id;
      this.user := user;
      status := Joining;
      transform := SPAWN;
      version := 0;
    }

    function Snapshot(): PlayerView
      reads this
    {
      PlayerView(transform, version)
    }

    method UpdateTransform(to: PlayerTransform, tick: nat)
      modifies this`transform, this`version
      ensures transform.position == to.position && transform.rotation == to.rotation && transform.tick == tick
      ensures version == Succ32(old(version)) && Snapshot() == old(Snapshot()).Moved(to, tick)
    {
      transform := to;
      transform := transform.(tick := tick);
      version := Succ32(version);
    }

    method SetStatus(s: PlayerStatus)
      modifies this`status
      ensures status == s
    {
      status := s;
    }
  }

  ghost function Views(players: map<PlayerID, PlayerState>): (r: map<PlayerID, PlayerView>)
    reads players.Values
    ensures r.Keys == players.Keys
  {
    map id | id in players :: players[id].Snapshot()
  }
}

module Delta {
  import opened Common
  import opened Players

  datatype Sighting = Sighting(id: PlayerID, view: PlayerView)

  datatype PlayerDelta = PlayerDelta(tick: nat, enters: seq<Sighting>, updates: seq<Sighting>, leaves: seq<PlayerID>)

  /** Last version sent of every player the client is believed to hold. */
  type Snapshot = map<PlayerID, nat>

  /** What a client holds after applying the deltas sent to it. */
  type Client = map<PlayerID, PlayerView>

  function AsMap(sightings: seq<Sighting>): Client {
    if sightings == [] then map[]
    else
      var last := sightings[|sightings| - 1];
      AsMap(sightings[..|sightings| - 1])[last.id := last.view]
  }

  lemma AsMapAppend(s: seq<Sighting>, x: Sighting)
    ensures AsMap(s + [x]) == AsMap(s)[x.id := x.view]
  {
    assert (s + [x])[..|s|] == s;
  }

  ghost function Apply(client: Client, d: PlayerDelta): Client {
    (client + AsMap(d.enters) + AsMap(d.updates)) - (set id | id in d.leaves)
  }

  // ----- What a delta must contain ------------------------------------------------

  ghost function EntersFor(visible: set<PlayerID>, snap: Snapshot, players: Client): Client {
    map id | id in players && id in visible && id !in snap :: players[id]
  }

  ghost function UpdatesFor(visible: set<PlayerID>, snap: Snapshot, players: Client): Client {
    map id | id in players && id in visible && id in snap && players[id].version != snap[id] :: players[id]
  }

  ghost function SnapshotAfter(visible: set<PlayerID>, snap: Snapshot, players: Client): Snapshot {
    map id | id in visible && (id in players || id in snap) :: if id in players then players[id].version else snap[id]
  }

  /** Each change exactly once, and nothing else. */
  ghost predicate IsDelta(d: PlayerDelta, visible: set<PlayerID>, snap: Snapshot, players: Client) {
    && AsMap(d.enters) == EntersFor(visible, snap, players) && |d.enters| == |EntersFor(visible, snap, players)|
    && AsMap(d.updates) == UpdatesFor(visible, snap, players) && |d.updates| == |UpdatesFor(visible, snap, players)|
    && Enumerates(d.leaves, snap.Keys - visible)
  }

  // ----- The client's side --------------------------------------------------------

  /** The snapshot describes what the client holds. */
  ghost predicate Tracks(client: Client, snap: Snapshot) {
    client.Keys == snap.Keys && forall id :: id in snap ==> client[id].version == snap[id]
  }

  ghost function Restrict(players: Client, visible: set<PlayerID>): Client {
    map id | id in players && id in visible :: players[id]
  }

  // One player's fate under a delta.
  lemma AppliedEntry(client: Client, d: PlayerDelta, visible: set<PlayerID>, snap: Snapshot, players: Client,
                     id: PlayerID)
    requires Tracks(client, snap) && IsDelta(d, visible, snap, players)
    ensures id in Apply(client, d) <==> id in visible && (id in players || id in snap)
    ensures id in Apply(client, d) && id in players && (id !in snap || snap[id] != players[id].version)
      ==> Apply(client, d)[id] == players[id]
    ensures id in Apply(client, d) && (id !in players || (id in snap && snap[id] == players[id].version))
      ==> id in client && Apply(client, d)[id] == client[id]
  {
    hide AsMap;
    var base := client + AsMap(d.enters) + AsMap(d.updates);
    assert id in d.leaves <==> id in snap.Keys - visible;
    assert id in Apply(client, d) <==> id in base && id !in d.leaves;
  }

  /** Seen from the client: it is told to enter exactly the visible players it lacks, to update exactly those it
      holds at another version, and to drop exactly those it holds and no longer sees; each once, in their
      current state. */
  lemma DeltaNamesChanges(client: Client, d: PlayerDelta, visible: set<PlayerID>, snap: Snapshot, players: Client,
                          id: PlayerID)
    requires Tracks(client, snap) && IsDelta(d, visible, snap, players)
    ensures id in AsMap(d.enters) <==> id in visible && id in players && id !in client
    ensures id in AsMap(d.updates) <==>
      id in visible && id in players && id in client && client[id].version != players[id].version
    ensures id in d.leaves <==> id in client && id !in visible
    ensures id in AsMap(d.enters) ==> AsMap(d.enters)[id] == players[id]
    ensures id in AsMap(d.updates) ==> AsMap(d.updates)[id] == players[id]
    ensures |d.enters| == |AsMap(d.enters)| && |d.updates| == |AsMap(d.updates)| && NoDuplicates(d.leaves)
  {
    hide AsMap;
  }

  lemma DeltaKeepsTracking(client: Client, d: PlayerDelta, visible: set<PlayerID>, snap: Snapshot, players: Client)
    requires Tracks(client, snap) && IsDelta(d, visible, snap, players)
    ensures Tracks(Apply(client, d), SnapshotAfter(visible, snap, players))
  {
    hide IsDelta, Apply;
    var after, snap' := Apply(client, d), SnapshotAfter(visible, snap, players);
    forall id
      ensures id in after <==> id in snap'
      ensures id in snap' ==> after[id].version == snap'[id]
    {
      AppliedEntry(client, d, visible, snap, players, id);
    }
  }

  /** Versions tell this client's entries apart from the current state. */
  ghost predicate VersionsDistinguish(client: Client, visible: set<PlayerID>, players: Client) {
    forall id :: id in client && id in visible && id in players && client[id].version == players[id].version
      ==> client[id] == players[id]
  }

  /** After a delta the client holds exactly its visible players in their current state
      if and only if equal versions meant equal states. */
  lemma DeltaSynchronisesExactly(client: Client, d: PlayerDelta, visible: set<PlayerID>, snap: Snapshot,
                                 players: Client)
    requires Tracks(client, snap) && IsDelta(d, visible, snap, players)
    requires forall id :: id in visible ==> id in players
    ensures Apply(client, d) == Restrict(players, visible) <==> VersionsDistinguish(client, visible, players)
  {
    hide IsDelta, Apply;
    var after, current := Apply(client, d), Restrict(players, visible);
    forall id
      ensures id in after <==> id in current
      ensures id in current && !(id in client && client[id].version == players[id].version) ==> after[id] == players[id]
      ensures id in current && id in client && client[id].version == players[id].version ==> after[id] == client[id]
    {
      AppliedEntry(client, d, visible, snap, players, id);
    }
    if VersionsDistinguish(client, visible, players) {
      assert after == current;
    }
    if after == current {
      forall id | id in client && id in visible && id in players && client[id].version == players[id].version
        ensures client[id] == players[id]
      {
        assert id in current && after[id] == client[id];
      }
    }
  }

  // ----- Snapshots and the builder -------------------------------------------------

  class ClientSnapshot {
    var visiblePlayers: Snapshot

    constructor ()
      ensures visiblePlayers == map[]
    {
      visiblePlayers := map[];
    }
  }

  class SnapshotCache {
    var snapshots: map<SessionID, ClientSnapshot>

    /** Sessions do not share a snapshot object. */
    ghost predicate Valid()
      reads this
    {
      forall a, b :: a in snapshots && b in snapshots && snapshots[a] == snapshots[b] ==> a == b
    }

    ghost function View(): (r: map<SessionID, Snapshot>)
      reads this, snapshots.Values
      ensures r.Keys == snapshots.Keys
    {
      map s | s in snapshots :: snapshots[s].visiblePlayers
    }

    constructor ()
      ensures Valid() && snapshots == map[]
    {
      snapshots := map[];
    }

    method GetOrCreate(session: SessionID) returns (s: ClientSnapshot)
      requires Valid()
      modifies this
      ensures Valid() && session in snapshots && snapshots[session] == s
      ensures session in old(snapshots) ==> snapshots == old(snapshots)
      ensures session !in old(snapshots) ==>
        fresh(s) && s.visiblePlayers == map[] && snapshots == old(snapshots)[session := s]
      ensures View() == if session in old(View()) then old(View()) else old(View())[session := map[]]
    {
      if session !in snapshots {
        s := new ClientSnapshot();
        snapshots := snapshots[session := s];
      } else {
        s := snapshots[session];
      }
    }

    method Remove(session: SessionID)
      requires Valid()
      modifies this
      ensures Valid() && snapshots == old(snapshots) - {session}
      ensures View() == old(View()) - {session}
    {
      snapshots := snapshots - {session};
    }
  }

  /** Versions on record once the players in `done` have been sent. */
  ghost function Recorded(done: set<PlayerID>, snap: Snapshot, views: Client): Snapshot {
    map id | id in snap.Keys + done && (id in snap || id in views) ::
      if id in done && id in views then views[id].version else snap[id]
  }

  /** The state of the enter/update pass once the players in `done` have been considered. */
  ghost predicate Progress(enters: seq<Sighting>, updates: seq<Sighting>, current: Snapshot,
                           done: set<PlayerID>, snap: Snapshot, views: Client) {
    && AsMap(enters) == EntersFor(done, snap, views) && |enters| == |EntersFor(done, snap, views)|
    && AsMap(updates) == UpdatesFor(done, snap, views) && |updates| == |UpdatesFor(done, snap, views)|
    && current == Recorded(done, snap, views)
  }

  lemma EntersGrow(done: set<PlayerID>, snap: Snapshot, views: Client, id: PlayerID)
    ensures EntersFor(done + {id}, snap, views)
         == if id in views && id !in snap then EntersFor(done, snap, views)[id := views[id]]
            else EntersFor(done, snap, views)
  {
  }

  lemma UpdatesGrow(done: set<PlayerID>, snap: Snapshot, views: Client, id: PlayerID)
    ensures UpdatesFor(done + {id}, snap, views)
         == if id in views && id in snap && views[id].version != snap[id]
            then UpdatesFor(done, snap, views)[id := views[id]]
            else UpdatesFor(done, snap, views)
  {
  }

  lemma RecordedGrow(done: set<PlayerID>, snap: Snapshot, views: Client, id: PlayerID)
    ensures Recorded(done + {id}, snap, views)
         == if id in views then Recorded(done, snap, views)[id := views[id].version] else Recorded(done, snap, views)
  {
  }

  lemma ProgressStart(snap: Snapshot, views: Client)
    ensures Progress([], [], snap, {}, snap, views)
  {
  }

  lemma ProgressEnter(enters: seq<Sighting>, updates: seq<Sighting>, current: Snapshot,
                      done: set<PlayerID>, snap: Snapshot, views: Client, id: PlayerID)
    requires Progress(enters, updates, current, done, snap, views) && id in views && id !in current
    ensures Progress(enters + [Sighting(id, views[id])], updates, current[id := views[id].version],
                     done + {id}, snap, views)
  {
    assert id !in snap && id !in done && id !in EntersFor(done, snap, views);
    hide EntersFor, UpdatesFor, Recorded, AsMap;
    AsMapAppend(enters, Sighting(id, views[id]));
    EntersGrow(done, snap, views, id);
    UpdatesGrow(done, snap, views, id);
    RecordedGrow(done, snap, views, id);
  }

  lemma ProgressUpdate(enters: seq<Sighting>, updates: seq<Sighting>, current: Snapshot,
                       done: set<PlayerID>, snap: Snapshot, views: Client, id: PlayerID)
    requires Progress(enters, updates, current, done, snap, views)
    requires id in views && id in current && views[id].version != current[id]
    ensures Progress(enters, updates + [Sighting(id, views[id])], current[id := views[id].version],
                     done + {id}, snap, views)
  {
    assert id in snap && current[id] == snap[id] && id !in done && id !in UpdatesFor(done, snap, views);
    hide EntersFor, UpdatesFor, Recorded, AsMap;
    AsMapAppend(updates, Sighting(id, views[id]));
    EntersGrow(done, snap, views, id);
    UpdatesGrow(done, snap, views, id);
    RecordedGrow(done, snap, views, id);
  }

  lemma ProgressSkip(enters: seq<Sighting>, updates: seq<Sighting>, current: Snapshot,
                     done: set<PlayerID>, snap: Snapshot, views: Client, id: PlayerID)
    requires Progress(enters, updates, current, done, snap, views)
    requires id !in views || (id in current && views[id].version == current[id])
    ensures Progress(enters, updates, current, done + {id}, snap, views)
  {
    if id in done {
      assert done + {id} == done;
    } else {
      assert id in views ==> id in snap && current[id] == snap[id];
      EntersGrow(done, snap, views, id);
      UpdatesGrow(done, snap, views, id);
      RecordedGrow(done, snap, views, id);
      hide EntersFor, UpdatesFor, Recorded, AsMap;
      assert id in views ==> current[id := views[id].version] == current;
    }
  }

  lemma ViewOf(players: map<PlayerID, PlayerState>, id: PlayerID)
    requires id in players
    ensures id in Views(players) && Views(players)[id] == players[id].Snapshot()
  {
  }

  /** Considers one visible player in the room: an enter, an update, or nothing new. */
  method ConsiderPlayer(id: PlayerID, view: PlayerView, snapshot: ClientSnapshot,
                        enters: seq<Sighting>, updates: seq<Sighting>,
                        ghost done: set<PlayerID>, ghost snap: Snapshot, ghost views: Client)
    returns (enters': seq<Sighting>, updates': seq<Sighting>)
    requires Progress(enters, updates, snapshot.visiblePlayers, done, snap, views) && id in views && views[id] == view
    modifies snapshot
    ensures Progress(enters', updates', snapshot.visiblePlayers, done + {id}, snap, views)
  {
    hide Progress;
    enters', updates' := enters, updates;
    if id !in snapshot.visiblePlayers {
      ProgressEnter(enters, updates, snapshot.visiblePlayers, done, snap, views, id);
      enters' := enters + [Sighting(id, view)];
      snapshot.visiblePlayers := snapshot.visiblePlayers[id := view.version];
    } else if view.version != snapshot.visiblePlayers[id] {
      ProgressUpdate(enters, updates, snapshot.visiblePlayers, done, snap, views, id);
      updates' := updates + [Sighting(id, view)];
      snapshot.visiblePlayers := snapshot.visiblePlayers[id := view.version];
    } else {
      ProgressSkip(enters, updates, snapshot.visiblePlayers, done, snap, views, id);
    }
  }

  /** Considers one visible ID, skipping one that is not in the room. */
  method ConsiderVisible(id: PlayerID, snapshot: ClientSnapshot, players: map<PlayerID, PlayerState>,
                         enters: seq<Sighting>, updates: seq<Sighting>,
                         ghost done: set<PlayerID>, ghost snap: Snapshot)
    returns (enters': seq<Sighting>, updates': seq<Sighting>)
    requires Progress(enters, updates, snapshot.visiblePlayers, done, snap, Views(players))
    modifies snapshot
    ensures Views(players) == old(Views(players))
    ensures Progress(enters', updates', snapshot.visiblePlayers, done + {id}, snap, Views(players))
  {
    hide Progress, Views;
    enters', updates' := enters, updates;
    ViewsCover(players);
    if id in players {
      ViewOf(players, id);
      enters', updates' :=
        ConsiderPlayer(id, players[id].Snapshot(), snapshot, enters, updates, done, snap, Views(players));
    } else {
      ProgressSkip(enters, updates, snapshot.visiblePlayers, done, snap, Views(players), id);
    }
  }

  /** Sorts every visible player into enters, updates or neither, recording the versions sent. */
  method BuildEntersAndUpdates(visible: seq<PlayerID>, snapshot: ClientSnapshot, players: map<PlayerID, PlayerState>)
    returns (enters: seq<Sighting>, updates: seq<Sighting>)
    modifies snapshot
    ensures Progress(enters, updates, snapshot.visiblePlayers,
                     Elements(visible), old(snapshot.visiblePlayers), Views(players))
  {
    hide Progress, Views, Elements;
    ghost var snap := snapshot.visiblePlayers;
    enters, updates := [], [];
    ElementsStart(visible);
    ProgressStart(snap, Views(players));
    for i := 0 to |visible|
      invariant Progress(enters, updates, snapshot.visiblePlayers, Elements(visible[..i]), snap, Views(players))
    {
      ElementsGrow(visible, i);
      enters, updates := ConsiderVisible(visible[i], snapshot, players, enters, updates, Elements(visible[..i]), snap);
    }
  }

  ghost function Elements(ids: seq<PlayerID>): set<PlayerID> {
    set id | id in ids
  }

  lemma ElementsStart(ids: seq<PlayerID>)
    ensures Elements(ids[..0]) == {} && Elements(ids[..|ids|]) == Elements(ids)
  {
    assert ids[..|ids|] == ids;
  }

  lemma ElementsGrow(ids: seq<PlayerID>, i: nat)
    requires i < |ids|
    ensures Elements(ids[..i + 1]) == Elements(ids[..i]) + {ids[i]}
  {
  }

  lemma ViewsCover(players: map<PlayerID, PlayerState>)
    ensures Views(players).Keys == players.Keys
  {
  }

  /** Drops from the snapshot, and lists, the players no longer visible. */
  method BuildLeaves(nowVisible: set<PlayerID>, snapshot: ClientSnapshot) returns (leaves: seq<PlayerID>)
    modifies snapshot
    ensures Enumerates(leaves, old(snapshot.visiblePlayers).Keys - nowVisible)
    ensures snapshot.visiblePlayers == old(snapshot.visiblePlayers) - (old(snapshot.visiblePlayers).Keys - nowVisible)
  {
    ghost var full := snapshot.visiblePlayers;
    leaves := [];
    var rest := snapshot.visiblePlayers.Keys;
    while rest != {}
      invariant rest <= full.Keys && snapshot.visiblePlayers == full
      invariant Enumerates(leaves, (full.Keys - rest) - nowVisible)
    {
      var id :| id in rest;
      rest := rest - {id};
      if id !in nowVisible {
        EnumeratesOneMore(leaves, (full.Keys - rest - {id}) - nowVisible, id);
        assert (full.Keys - rest - {id}) - nowVisible + {id} == (full.Keys - rest) - nowVisible;
        leaves := leaves + [id];
      } else {
        assert (full.Keys - rest - {id}) - nowVisible == (full.Keys - rest) - nowVisible;
      }
    }
    for i := 0 to |leaves|
      invariant snapshot.visiblePlayers == full - (set id | id in leaves[..i])
    {
      assert leaves[..i + 1] == leaves[..i] + [leaves[i]];
      snapshot.visiblePlayers := snapshot.visiblePlayers - {leaves[i]};
    }
    assert leaves[..|leaves|] == leaves;
  }

  lemma RecordedThenLeft(visible: set<PlayerID>, snap: Snapshot, views: Client)
    ensures var full := Recorded(visible, snap, views);
      full.Keys - visible == snap.Keys - visible && full - (full.Keys - visible) == SnapshotAfter(visible, snap, views)
  {
  }

  method BuildPlayerDelta(tick: nat, visible: seq<PlayerID>, snapshot: ClientSnapshot,
                          players: map<PlayerID, PlayerState>)
    returns (d: PlayerDelta)
    modifies snapshot
    ensures var seen, snap, views := Elements(visible), old(snapshot.visiblePlayers), Views(players);
      d.tick == tick && IsDelta(d, seen, snap, views) && snapshot.visiblePlayers == SnapshotAfter(seen, snap, views)
  {
    hide SnapshotAfter, Recorded, EntersFor, UpdatesFor, AsMap, Views, Enumerates;
    ghost var snap, views := snapshot.visiblePlayers, Views(players);
    var nowVisible := set id | id in visible;
    assert nowVisible == Elements(visible);
    var enters, updates := BuildEntersAndUpdates(visible, snapshot, players);
    ghost var full := snapshot.visiblePlayers;
    var leaves := BuildLeaves(nowVisible, snapshot);
    RecordedThenLeft(nowVisible, snap, views);
    d := PlayerDelta(tick, enters, updates, leaves);
  }
}
