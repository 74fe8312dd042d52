// The map order that feeds the allocator stays inside it: two runs of a room that differ only
// in those orders show every player the same neighbours.

module RoomOrder {
  import opened Common
  import opened Geometry
  import opened KMeans
  import opened KMeansOutput
  import opened KMeansOrder
  import opened Players
  import LockRuns
  import opened RoomModel
  import opened RoomInvariants
  import opened ClusterSchedule

  /** The same action, up to the orders a tick's recompute happened to use. */
  ghost predicate SameChoice(a: Action, b: Action) {
    a == b || (a.FinishTick? && b.FinishTick?)
  }

  ghost predicate SamePrevious(x: Option<ClusterOutput>, y: Option<ClusterOutput>) {
    (x.None? <==> y.None?) && (x.Some? && y.Some? ==> SameOutput(x.value, y.value))
  }

  /** Equal up to the order of the names inside a cluster. */
  ghost predicate SameRoom(s: RoomState, t: RoomState) {
    && t == s.(cluster := t.cluster, previous := t.previous)
    && SameOutput(s.cluster, t.cluster) && SamePrevious(s.previous, t.previous)
  }

  /** No recompute meets more named players than the room limit. */
  ghost predicate StaysInLimit(cfg: RoomConfig, acts: seq<Action>) {
    acts == [] || (
      var front, last := acts[..|acts| - 1], acts[|acts| - 1];
      var s := After(cfg, front);
      && StaysInLimit(cfg, front)
      && (Recomputes(s, cfg.cluster, last) ==> |Named(s.players)| <= cfg.cluster.maxPlayersPerRoom))
  }

  // ----- One recompute -----------------------------------------------------------

  lemma InputMembers(players: map<PlayerID, PlayerView>, order: seq<PlayerID>, x: ClusterPlayer)
    requires Enumerates(order, players.Keys)
    ensures multiset(ClusterInput(players, order))[x]
         == if x.id in players && x.pos == players[x.id].Ground() then 1 else 0
  {
    var input := ClusterInput(players, order);
    InputDistinct(players, order);
    DistinctMultiplicity(input, x);
    if x.id in players && x.pos == players[x.id].Ground() {
      assert x.id in order;
      var j :| 0 <= j < |order| && order[j] == x.id;
      assert input[j] == x;
    }
  }

  lemma InputsPermuted(players: map<PlayerID, PlayerView>, order: seq<PlayerID>, other: seq<PlayerID>)
    requires Enumerates(order, players.Keys) && Enumerates(other, players.Keys)
    ensures multiset(ClusterInput(players, order)) == multiset(ClusterInput(players, other))
  {
    forall x
      ensures multiset(ClusterInput(players, order))[x] == multiset(ClusterInput(players, other))[x]
    {
      InputMembers(players, order, x);
      InputMembers(players, other, x);
    }
  }

  lemma NamedCount(players: map<PlayerID, PlayerView>, order: seq<PlayerID>)
    requires Enumerates(order, players.Keys)
    ensures |NonEmptyIDs(ClusterInput(players, order))| == |Named(players)|
  {
    NamedInput(players, order);
    IDCount(NonEmptyIDs(ClusterInput(players, order)));
  }

  lemma RecomputedSame(s: RoomState, t: RoomState, cfg: ClusterConfig, order: seq<PlayerID>, sorted: seq<ClusterPlayer>,
                       order': seq<PlayerID>, sorted': seq<ClusterPlayer>)
    requires SameRoom(s, t) && ValidConfig(cfg) && |Named(s.players)| <= cfg.maxPlayersPerRoom
    requires PossibleOrder(s, cfg, order, sorted) && PossibleOrder(t, cfg, order', sorted')
    ensures SameRoom(Recomputed(s, cfg, order, sorted), Recomputed(t, cfg, order', sorted'))
  {
    hide Clustering, ClusterInput, Named, NonEmptyIDs, IsSortOf, SameOutput;
    var p, q := ClusterInput(s.players, order), ClusterInput(s.players, order');
    InputsPermuted(s.players, order, order');
    InputDistinct(s.players, order);
    NamedCount(s.players, order);
    OrderIndependent(p, sorted, q, sorted', cfg, s.previous);
    if s.previous.Some? {
      PrevUpToOrder(ValidPlayers(q, cfg.maxPlayersPerRoom), sorted', cfg, s.previous.value, t.previous.value);
    }
  }

  lemma ClusteredSame(s: RoomState, t: RoomState, cfg: ClusterConfig, a: Action, b: Action)
    requires SameRoom(s, t) && a.FinishTick? && b.FinishTick?
    requires Due(s, cfg) ==> PossibleOrder(s, cfg, a.order, a.sorted) && PossibleOrder(t, cfg, b.order, b.sorted)
    requires Recomputes(s, cfg, a) ==> |Named(s.players)| <= cfg.maxPlayersPerRoom
    ensures SameRoom(Clustered(s, cfg, a.order, a.sorted), Clustered(t, cfg, b.order, b.sorted))
  {
    hide SameOutput, PossibleOrder, Recomputed, Named;
    if Due(s, cfg) {
      RecomputedSame(s, t, cfg, a.order, a.sorted, b.order, b.sorted);
    }
  }

  // ----- One action --------------------------------------------------------------

  lemma BroadcastSame(s: RoomState, t: RoomState, cfg: RoomConfig)
    requires SameRoom(s, t)
    ensures SameRoom(Broadcast(s, cfg), Broadcast(t, cfg))
  {
    forall x | Served(s, x)
      ensures Served(t, x) && Refreshed(s, cfg, x) == Refreshed(t, cfg, x)
    {
      SameSight(s, t, cfg, s.sessions[x].player);
    }
    hide SameOutput, Refreshed;
    assert Broadcast(s, cfg).snapshots == Broadcast(t, cfg).snapshots;
  }

  // Commands neither read nor write the clusters.
  lemma MovedSame(s: RoomState, t: RoomState, p: PlayerID, to: PlayerTransform)
    requires SameRoom(s, t)
    ensures SameRoom(Moved(s, p, to), Moved(t, p, to))
  {
    hide SameOutput, SqDist;
  }

  lemma CommandSame(s: RoomState, t: RoomState, cmd: Command)
    requires SameRoom(s, t)
    ensures SameRoom(WithoutLocks(s, cmd), WithoutLocks(t, cmd))
  {
    hide SameOutput, Moved;
    match cmd
    case PlayerInput(p, to, time) => MovedSame(s, t, p, to);
    case UpdatePlayerTransform(p, to) => MovedSame(s, t, p, to);
    case _ =>
  }

  lemma HandledSame(s: RoomState, t: RoomState, cfg: RoomConfig, cmd: Command)
    requires SameRoom(s, t)
    ensures SameRoom(Handled(s, cfg, cmd), Handled(t, cfg, cmd))
  {
    hide SameOutput, LockEventsOf, LockRuns.Run, WithoutLocks;
    CommandSame(s, t, cmd);
  }

  lemma NextSame(s: RoomState, t: RoomState, cfg: RoomConfig, a: Action, b: Action)
    requires SameRoom(s, t) && SameChoice(a, b) && Legal(s, cfg, a) && Legal(t, cfg, b)
    requires Recomputes(s, cfg.cluster, a) ==> |Named(s.players)| <= cfg.cluster.maxPlayersPerRoom
    ensures SameRoom(Next(s, cfg, a), Next(t, cfg, b))
  {
    hide SameOutput, LockRuns.Run, Clustered, Broadcast, Handled, PossibleOrder, ShouldRecompute, Named;
    match a {
      case Handle(cmd) => HandledSame(s, t, cfg, cmd);
      case FinishTick(order, sorted) =>
        DueSame(s, t, cfg.cluster);
        ClusteredSame(s, t, cfg.cluster, a, b);
        BroadcastSame(Clustered(s, cfg.cluster, a.order, a.sorted), Clustered(t, cfg.cluster, b.order, b.sorted), cfg);
      case _ =>
    }
  }

  lemma DueSame(s: RoomState, t: RoomState, cfg: ClusterConfig)
    requires SameRoom(s, t)
    ensures Due(s, cfg) <==> Due(t, cfg)
  {
  }

  // ----- Runs --------------------------------------------------------------------

  /** Two legal runs with the same ticks and commands, whatever orders their recomputes used, reach the same room up to
      the order of names in clusters, and everyone sees the same players, as long as no recompute meets more named
      players than the limit. */
  lemma {:induction false} RoomOrderIndependent(cfg: RoomConfig, acts: seq<Action>, other: seq<Action>)
    requires LegalRun(cfg, acts) && LegalRun(cfg, other) && |acts| == |other|
    requires forall i :: 0 <= i < |acts| ==> SameChoice(acts[i], other[i])
    requires StaysInLimit(cfg, acts)
    ensures SameRoom(After(cfg, acts), After(cfg, other))
    ensures forall p :: Visible(After(cfg, acts), cfg, p) == Visible(After(cfg, other), cfg, p)
  {
    if acts != [] {
      var last := |acts| - 1;
      RoomOrderIndependent(cfg, acts[..last], other[..last]);
      hide Next, SameRoom, Legal, Recomputes, Named, Visible;
      NextSame(After(cfg, acts[..last]), After(cfg, other[..last]), cfg, acts[last], other[last]);
    }
    hide After, SameRoom;
    forall p
      ensures Visible(After(cfg, acts), cfg, p) == Visible(After(cfg, other), cfg, p)
    {
      SameSight(After(cfg, acts), After(cfg, other), cfg, p);
    }
  }

  /** Past the limit the order does matter: two legal ways to finish the tick assign different players. */
  lemma OrderMattersPastLimit(s: RoomState, cfg: ClusterConfig)
      returns (order: seq<PlayerID>, sorted: seq<ClusterPlayer>, order': seq<PlayerID>, sorted': seq<ClusterPlayer>)
    requires Due(s, cfg) && |Named(s.players)| > cfg.maxPlayersPerRoom
    ensures PossibleOrder(s, cfg, order, sorted) && PossibleOrder(s, cfg, order', sorted')
    ensures Clustered(s, cfg, order, sorted).cluster.assignments.Keys
      != Clustered(s, cfg, order', sorted').cluster.assignments.Keys
  {
    var limit := cfg.maxPlayersPerRoom;
    order := ListOf(s.players.Keys);
    var p := ClusterInput(s.players, order);
    InputDistinct(s.players, order);
    NamedCount(s.players, order);
    var q := TruncationDependsOnOrder(p, limit);
    order' := OrderBehind(s.players, order, q);
    sorted := SortByID(ValidPlayers(p, limit));
    sorted' := SortByID(ValidPlayers(q, limit));
    hide Clustering, ValidPlayers, IsSortOf;
    ClusteringInRange(ValidPlayers(p, limit), sorted, cfg, s.previous);
    ClusteringInRange(ValidPlayers(q, limit), sorted', cfg, s.previous);
  }

  // Every permutation of the allocator's input comes from some order of the players.
  lemma OrderBehind(players: map<PlayerID, PlayerView>, order: seq<PlayerID>, q: seq<ClusterPlayer>)
    returns (order': seq<PlayerID>)
    requires Enumerates(order, players.Keys) && multiset(q) == multiset(ClusterInput(players, order))
    ensures Enumerates(order', players.Keys) && ClusterInput(players, order') == q
  {
    InputDistinct(players, order);
    DistinctPermuted(ClusterInput(players, order), q);
    order' := seq(|q|, i requires 0 <= i < |q| => q[i].id);
    forall i | 0 <= i < |q|
      ensures q[i].id in players && q[i].pos == players[q[i].id].Ground()
    {
      assert q[i] in multiset(q);
      InputMembers(players, order, q[i]);
    }
    forall id | id in players
      ensures id in order'
    {
      var x := ClusterPlayer(id, players[id].Ground());
      InputMembers(players, order, x);
      assert x in multiset(q);
      var j := IndexIn(q, x);
      assert order'[j] == id;
    }
  }
}
