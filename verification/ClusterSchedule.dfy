// Cluster scheduling over whole runs: at the end of every tick the clusters match
// the players, and neither time nor movement has drifted past its bound.

module ClusterSchedule {
  import opened Common
  import opened Geometry
  import opened KMeans
  import opened KMeansOutput
  import opened KMeansOrder
  import opened Players
  import opened RoomModel
  import opened RoomInvariants
  import LockRuns

  // ----- Clusters match the players ----------------------------------------------

  ghost function Named(players: map<PlayerID, PlayerView>): set<PlayerID> {
    players.Keys - {""}
  }

  ghost predicate Fits(cluster: ClusterOutput, players: map<PlayerID, PlayerView>, limit: int) {
    && cluster.assignments.Keys <= Named(players)
    && |cluster.assignments.Keys| == (if |Named(players)| <= limit then |Named(players)| else limit)
    && Inverse(cluster)
  }

  /** Outside a membership change, the clusters partition the named players, up to the room limit;
      rooms that never cluster keep the empty output. */
  ghost predicate ClustersKnown(s: RoomState, cfg: ClusterConfig) {
    && TicksInRange(s)
    && (!cfg.enabled || !ValidConfig(cfg) ==> s.cluster == EMPTY_OUTPUT)
    && (cfg.enabled && ValidConfig(cfg) && !s.membershipDirty ==> Fits(s.cluster, s.players, cfg.maxPlayersPerRoom))
  }

  lemma InputDistinct(players: map<PlayerID, PlayerView>, order: seq<PlayerID>)
    requires Enumerates(order, players.Keys)
    ensures DistinctIDs(ClusterInput(players, order))
  {
  }

  lemma NamedInput(players: map<PlayerID, PlayerView>, order: seq<PlayerID>)
    requires Enumerates(order, players.Keys)
    ensures IDs(NonEmptyIDs(ClusterInput(players, order))) == Named(players)
    ensures DistinctIDs(NonEmptyIDs(ClusterInput(players, order)))
  {
    var input := ClusterInput(players, order);
    var named := NonEmptyIDs(input);
    InputDistinct(players, order);
    FilterKeepsDistinct(input);
    forall id | id in IDs(named)
      ensures id in Named(players)
    {
      var i :| 0 <= i < |named| && named[i].id == id;
      assert named[i] in input;
      var j :| 0 <= j < |input| && input[j] == named[i];
      assert order[j] == id;
    }
    forall id | id in Named(players)
      ensures id in IDs(named)
    {
      assert id in order;
      var j :| 0 <= j < |order| && order[j] == id;
      FilterMultiset(input, input[j]);
      assert input[j] in multiset(input);
      assert input[j] in multiset(named);
      var i := IndexIn(named, input[j]);
      assert named[i].id == id;
    }
  }

  // The limit keeps a prefix of the named players.
  lemma ValidAmongNamed(input: seq<ClusterPlayer>, limit: int)
    requires DistinctIDs(NonEmptyIDs(input)) && limit > 0
    ensures var named, valid := NonEmptyIDs(input), ValidPlayers(input, limit);
      && DistinctIDs(valid) && IDs(valid) <= IDs(named)
      && |IDs(valid)| == (if |IDs(named)| <= limit then |IDs(named)| else limit)
  {
    var named, valid := NonEmptyIDs(input), ValidPlayers(input, limit);
    hide NonEmptyIDs;
    IDCount(named);
    IDCount(valid);
    forall id | id in IDs(valid)
      ensures id in IDs(named)
    {
      var i :| 0 <= i < |valid| && valid[i].id == id;
      assert named[i].id == id;
    }
  }

  lemma RecomputedFits(s: RoomState, cfg: ClusterConfig, order: seq<PlayerID>, sorted: seq<ClusterPlayer>)
    requires ValidConfig(cfg) && PossibleOrder(s, cfg, order, sorted)
    ensures Fits(Recomputed(s, cfg, order, sorted).cluster, s.players, cfg.maxPlayersPerRoom)
  {
    hide Clustering, ValidPlayers, NonEmptyIDs, ClusterInput, Inverse, IDs, DistinctIDs;
    var input := ClusterInput(s.players, order);
    NamedInput(s.players, order);
    ValidAmongNamed(input, cfg.maxPlayersPerRoom);
    ClusteringPartitions(ValidPlayers(input, cfg.maxPlayersPerRoom), sorted, cfg, s.previous);
  }

  lemma ClusteredKnown(s: RoomState, cfg: ClusterConfig, order: seq<PlayerID>, sorted: seq<ClusterPlayer>)
    requires ClustersKnown(s, cfg) && (Due(s, cfg) ==> PossibleOrder(s, cfg, order, sorted))
    ensures ClustersKnown(Clustered(s, cfg, order, sorted), cfg)
    ensures cfg.enabled && ValidConfig(cfg) ==> !Clustered(s, cfg, order, sorted).membershipDirty
  {
    hide Clustering, PossibleOrder, Fits;
    if Due(s, cfg) {
      RecomputedFits(s, cfg, order, sorted);
    }
  }

  // A command that does not mark the membership dirty leaves the player set alone.
  lemma CommandMarksMembership(s: RoomState, cmd: Command)
    ensures var t := WithoutLocks(s, cmd);
      && t.cluster == s.cluster && t.tick == s.tick && t.lastClusterTick == s.lastClusterTick
      && (t.membershipDirty || (!s.membershipDirty && t.players.Keys == s.players.Keys))
  {
    hide SqDist;
  }

  lemma HandledKeepsKnown(s: RoomState, cfg: RoomConfig, cmd: Command)
    requires ClustersKnown(s, cfg.cluster)
    ensures ClustersKnown(Handled(s, cfg, cmd), cfg.cluster)
  {
    hide LockEventsOf, LockRuns.Run, WithoutLocks, Inverse;
    CommandMarksMembership(s, cmd);
  }

  lemma NextKnown(s: RoomState, cfg: RoomConfig, a: Action)
    requires ClustersKnown(s, cfg.cluster) && Legal(s, cfg, a)
    ensures ClustersKnown(Next(s, cfg, a), cfg.cluster)
    ensures a.FinishTick? && cfg.cluster.enabled && ValidConfig(cfg.cluster) ==> !Next(s, cfg, a).membershipDirty
  {
    hide LockRuns.Run, Handled, Clustered, Broadcast, Fits;
    match a
    case Handle(cmd) => HandledKeepsKnown(s, cfg, cmd);
    case FinishTick(order, sorted) =>
      var c := Clustered(s, cfg.cluster, order, sorted);
      ClusteredKnown(s, cfg.cluster, order, sorted);
      BroadcastKeeps(c, cfg);
    case _ =>
  }

  lemma {:induction false} ClustersStayKnown(cfg: RoomConfig, acts: seq<Action>)
    requires LegalRun(cfg, acts)
    ensures ClustersKnown(After(cfg, acts), cfg.cluster)
    ensures acts != [] && acts[|acts| - 1].FinishTick? && cfg.cluster.enabled && ValidConfig(cfg.cluster)
      ==> !After(cfg, acts).membershipDirty
  {
    if acts == [] {
      assert EMPTY_OUTPUT.assignments.Keys == {} && Named(map[]) == {};
    } else {
      ClustersStayKnown(cfg, acts[..|acts| - 1]);
      NextKnown(After(cfg, acts[..|acts| - 1]), cfg, acts[|acts| - 1]);
      hide Next;
    }
  }

  // ----- Who sees whom -----------------------------------------------------------

  lemma MatesOf(cluster: ClusterOutput, p: PlayerID, q: PlayerID)
    requires Inverse(cluster)
    ensures q in ClusterMates(cluster, p) <==>
      && p != q && p in cluster.assignments && q in cluster.assignments
      && cluster.assignments[p] == cluster.assignments[q]
  {
  }

  /** At the end of every tick of a clustering room with a valid config, whose players are named and
      within the limit, the clusters cover exactly the current players; visibility is sharing a cluster,
      so it is symmetric, excludes oneself and never names a departed player. */
  lemma ClusterVisibility(cfg: RoomConfig, acts: seq<Action>, p: PlayerID, q: PlayerID)
    requires cfg.cluster.enabled && ValidConfig(cfg.cluster)
    requires LegalRun(cfg, acts) && acts != [] && acts[|acts| - 1].FinishTick?
    requires var s := After(cfg, acts); "" !in s.players && |s.players| <= cfg.cluster.maxPlayersPerRoom
    ensures After(cfg, acts).cluster.assignments.Keys == After(cfg, acts).players.Keys
    ensures var s := After(cfg, acts);
      p in s.players && q in s.players ==>
        && (q in Visible(s, cfg, p) <==> p != q && s.cluster.assignments[p] == s.cluster.assignments[q])
        && (q in Visible(s, cfg, p) <==> p in Visible(s, cfg, q))
    ensures var s := After(cfg, acts);
      p in s.players ==> p !in Visible(s, cfg, p) && Visible(s, cfg, p) <= s.players.Keys
  {
    var s := After(cfg, acts);
    ClustersStayKnown(cfg, acts);
    hide After, LegalRun, Inverse;
    assert Named(s.players) == s.players.Keys;
    assert |s.players| == |s.players.Keys|;
    SubsetSize(s.cluster.assignments.Keys, s.players.Keys);
    MatesOf(s.cluster, p, q);
    MatesOf(s.cluster, q, p);
    forall id | id in ClusterMates(s.cluster, p)
      ensures id in s.players
    {
      MatesOf(s.cluster, p, id);
    }
  }

  lemma VisiblePresent(s: RoomState, cfg: RoomConfig, order: seq<PlayerID>, sorted: seq<ClusterPlayer>, p: PlayerID)
    requires Linked(s) && ClustersKnown(s, cfg.cluster) && Legal(s, cfg, FinishTick(order, sorted))
    ensures var c := Clustered(s, cfg.cluster, order, sorted);
      p in c.players ==> Visible(c, cfg, p) <= c.players.Keys
  {
    hide Clustered;
    var c := Clustered(s, cfg.cluster, order, sorted);
    ClusteredKnown(s, cfg.cluster, order, sorted);
    ClusteredKeeps(s, cfg.cluster, order, sorted);
    EmptyInverse();
    hide Inverse;
    if cfg.cluster.enabled {
      forall id | id in ClusterMates(c.cluster, p)
        ensures id in c.players
      {
        MatesOf(c.cluster, p, id);
      }
    }
  }

  /** Whatever the configuration and the commands, nobody is shown a player who is not in the room. */
  lemma VisibleArePresent(cfg: RoomConfig, acts: seq<Action>, order: seq<PlayerID>, sorted: seq<ClusterPlayer>,
                          p: PlayerID)
    requires LegalRun(cfg, acts) && Legal(After(cfg, acts), cfg, FinishTick(order, sorted))
    ensures var c := Clustered(After(cfg, acts), cfg.cluster, order, sorted);
      p in c.players ==> Visible(c, cfg, p) <= c.players.Keys
  {
    ClustersStayKnown(cfg, acts);
    TablesStayLinked(cfg, acts);
    hide After, Clustered, Legal;
    VisiblePresent(After(cfg, acts), cfg, order, sorted, p);
  }

  lemma EmptyInverse()
    ensures Inverse(EMPTY_OUTPUT)
  {
  }

  // ----- Recompute bounds --------------------------------------------------------

  /** Where everyone was at the last recompute, and how often each has moved since. */
  datatype Watch = Watch(base: map<PlayerID, Pos>, moves: map<PlayerID, nat>)

  ghost function MovesOf(w: Watch, p: PlayerID): nat {
    if p in w.moves then w.moves[p] else 0
  }

  ghost function Grounds(players: map<PlayerID, PlayerView>): map<PlayerID, Pos> {
    map p | p in players :: players[p].Ground()
  }

  ghost predicate Recomputes(s: RoomState, cfg: ClusterConfig, a: Action) {
    a.FinishTick? && Due(s, cfg) && PossibleOrder(s, cfg, a.order, a.sorted)
  }

  ghost predicate Moves(s: RoomState, a: Action, p: PlayerID) {
    a.Handle? && p in s.players && match a.cmd
      case PlayerInput(q, t, time) => q == p && ValidInput(t, time)
      case UpdatePlayerTransform(q, t) => q == p
      case _ => false
  }

  ghost function Watched(w: Watch, s: RoomState, cfg: ClusterConfig, a: Action): Watch {
    if Recomputes(s, cfg, a) then Watch(Grounds(s.players), map[])
    else w.(moves := map p | p in w.moves.Keys + s.players.Keys :: MovesOf(w, p) + if Moves(s, a, p) then 1 else 0)
  }

  ghost function WatchOf(cfg: RoomConfig, acts: seq<Action>): Watch {
    if acts == [] then Watch(map[], map[])
    else Watched(WatchOf(cfg, acts[..|acts| - 1]), After(cfg, acts[..|acts| - 1]), cfg.cluster, acts[|acts| - 1])
  }

  /** Nobody is farther from its base than its moves times the longest single move allow. */
  ghost predicate Displaced(w: Watch, s: RoomState) {
    && s.maxMoveSq >= 0.0
    && (!s.membershipDirty ==>
          && w.base.Keys == s.players.Keys
          && forall p :: p in s.players ==> Near(w, s, p))
  }

  ghost predicate Near(w: Watch, s: RoomState, p: PlayerID)
    requires p in s.players && p in w.base
  {
    SqDist(w.base[p], s.players[p].Ground()) <= Reach(MovesOf(w, p), s.maxMoveSq)
  }

  // One player's bound after a step of squared length at most `longer`.
  lemma StepStaysNear(base: Pos, before: Pos, after: Pos, m: nat, longest: real, longer: real)
    requires 0.0 <= longest <= longer && SqDist(after, before) <= longer
    requires SqDist(base, before) <= Reach(m, longest)
    ensures SqDist(base, before) <= Reach(m, longer)
    ensures SqDist(base, after) <= Reach(m + 1, longer)
  {
    SqDistSymmetric(after, before);
    hide SqDist, Reach;
    ReachMonotone(m, longest, longer);
    StepsAddUp(base, before, after, m, longer);
  }

  lemma MovedFacts(s: RoomState, q: PlayerID, to: PlayerTransform)
    requires q in s.players
    ensures var t := Moved(s, q, to);
      && t.membershipDirty == s.membershipDirty && t.players.Keys == s.players.Keys
      && s.maxMoveSq <= t.maxMoveSq
      && SqDist(t.players[q].Ground(), s.players[q].Ground()) <= t.maxMoveSq
      && forall p :: p in s.players && p != q ==> t.players[p] == s.players[p]
  {
    hide SqDist, Reach;
  }

  lemma MovedDisplaced(w: Watch, w': Watch, s: RoomState, q: PlayerID, to: PlayerTransform)
    requires Displaced(w, s) && q in s.players && w'.base == w.base
    requires forall p :: p in s.players ==> MovesOf(w', p) == MovesOf(w, p) + if p == q then 1 else 0
    ensures Displaced(w', Moved(s, q, to))
  {
    var t := Moved(s, q, to);
    MovedFacts(s, q, to);
    hide Moved, SqDist, Reach;
    if !t.membershipDirty {
      forall p | p in t.players
        ensures Near(w', t, p)
      {
        assert Near(w, s, p);
        var m := MovesOf(w, p);
        if p == q {
          StepStaysNear(w.base[p], s.players[p].Ground(), t.players[p].Ground(), m, s.maxMoveSq, t.maxMoveSq);
        } else {
          ReachMonotone(m, s.maxMoveSq, t.maxMoveSq);
        }
      }
    }
  }

  lemma StillDisplaced(w: Watch, w': Watch, s: RoomState, t: RoomState)
    requires Displaced(w, s) && w'.base == w.base && t.maxMoveSq == s.maxMoveSq
    requires t.membershipDirty || (!s.membershipDirty && t.players == s.players)
    requires forall p :: p in s.players ==> MovesOf(w', p) == MovesOf(w, p)
    ensures Displaced(w', t)
  {
    hide SqDist, Reach;
    forall p | p in s.players && !t.membershipDirty
      ensures Near(w', t, p)
    {
      assert Near(w, s, p);
    }
  }

  lemma FreshWatchDisplaced(s: RoomState)
    requires s.maxMoveSq == 0.0
    ensures Displaced(Watch(Grounds(s.players), map[]), s)
  {
    hide Reach;
    var w := Watch(Grounds(s.players), map[]);
    forall p | p in s.players
      ensures Near(w, s, p)
    {
      assert w.base[p] == s.players[p].Ground();
      ReachZero(MovesOf(w, p));
    }
  }

  lemma ReachZero(m: nat)
    ensures Reach(m, 0.0) == 0.0
  {
  }

  lemma RecomputedDisplaced(s: RoomState, cfg: RoomConfig, a: Action)
    requires Recomputes(s, cfg.cluster, a)
    ensures Displaced(Watch(Grounds(s.players), map[]), Next(s, cfg, a))
  {
    hide PossibleOrder, Clustering, Broadcast, IsBroadcastTick, Displaced;
    var c := Clustered(s, cfg.cluster, a.order, a.sorted);
    assert c.maxMoveSq == 0.0 && c.players == s.players;
    BroadcastKeeps(c, cfg);
    FreshWatchDisplaced(Next(s, cfg, a));
  }

  // A command counts one move for the player it moves, if any.
  lemma WatchedCommand(w: Watch, s: RoomState, cfg: ClusterConfig, cmd: Command)
    ensures var w' := Watched(w, s, cfg, Handle(cmd));
      && w'.base == w.base
      && forall p :: p in s.players ==> MovesOf(w', p) == MovesOf(w, p) + if Moves(s, Handle(cmd), p) then 1 else 0
  {
    hide Moves;
  }

  lemma HandledDisplaced(w: Watch, s: RoomState, cfg: RoomConfig, cmd: Command)
    requires Displaced(w, s)
    ensures Displaced(Watched(w, s, cfg.cluster, Handle(cmd)), Handled(s, cfg, cmd))
  {
    var w' := Watched(w, s, cfg.cluster, Handle(cmd));
    var t := Handled(s, cfg, cmd);
    hide LockEventsOf, LockRuns.Run, Displaced, SqDist, Moved, Watched, MovesOf;
    WatchedCommand(w, s, cfg.cluster, cmd);
    match cmd {
      case PlayerInput(q, to, time) =>
        if ValidInput(to, time) && q in s.players {
          MovedDisplaced(w, w', s, q, to);
          SameMotion(w', Moved(s, q, to), t);
        } else {
          if q !in s.players { MovedAbsent(s, q, to); }
          StillDisplaced(w, w', s, t);
        }
      case UpdatePlayerTransform(q, to) =>
        if q in s.players {
          MovedDisplaced(w, w', s, q, to);
          SameMotion(w', Moved(s, q, to), t);
        } else {
          MovedAbsent(s, q, to);
          StillDisplaced(w, w', s, t);
        }
      case _ => StillDisplaced(w, w', s, t);
    }
  }

  lemma MovedAbsent(s: RoomState, q: PlayerID, to: PlayerTransform)
    requires q !in s.players
    ensures Moved(s, q, to) == s
  {
  }

  lemma SameMotion(w: Watch, s: RoomState, t: RoomState)
    requires Displaced(w, s) && t.players == s.players && t.maxMoveSq == s.maxMoveSq
    requires t.membershipDirty == s.membershipDirty
    ensures Displaced(w, t)
  {
    hide SqDist, Reach;
    forall p | p in t.players && !t.membershipDirty
      ensures Near(w, t, p)
    {
      assert Near(w, s, p);
    }
  }

  lemma NextDisplaced(w: Watch, s: RoomState, cfg: RoomConfig, a: Action)
    requires Displaced(w, s)
    ensures Displaced(Watched(w, s, cfg.cluster, a), Next(s, cfg, a))
  {
    if Recomputes(s, cfg.cluster, a) {
      RecomputedDisplaced(s, cfg, a);
    } else if a.Handle? {
      HandledDisplaced(w, s, cfg, a.cmd);
    } else {
      hide LockRuns.Run, Displaced, Broadcast;
      var w', t := Watched(w, s, cfg.cluster, a), Next(s, cfg, a);
      assert forall p :: p in s.players ==> MovesOf(w', p) == MovesOf(w, p);
      if a.FinishTick? {
        BroadcastKeeps(Clustered(s, cfg.cluster, a.order, a.sorted), cfg);
        assert Clustered(s, cfg.cluster, a.order, a.sorted) == s;
      }
      StillDisplaced(w, w', s, t);
    }
  }

  lemma {:induction false} AlwaysDisplaced(cfg: RoomConfig, acts: seq<Action>)
    ensures Displaced(WatchOf(cfg, acts), After(cfg, acts))
  {
    if acts != [] {
      var front := acts[..|acts| - 1];
      AlwaysDisplaced(cfg, front);
      NextDisplaced(WatchOf(cfg, front), After(cfg, front), cfg, acts[|acts| - 1]);
      hide Next, Watched, Displaced;
    }
  }

  /** The interval the trigger works with: uint32(ReclusterIntervalTicks), where 0 means every tick. */
  ghost function Interval(cfg: ClusterConfig): (r: nat)
    ensures 1 <= r < UINT32
    ensures 1 <= cfg.reclusterIntervalTicks < UINT32 ==> r == cfg.reclusterIntervalTicks
  {
    if cfg.reclusterIntervalTicks % UINT32 == 0 then 1 else cfg.reclusterIntervalTicks % UINT32
  }

  /** A tick has begun and not yet finished. */
  ghost predicate InTick(acts: seq<Action>) {
    acts != [] && (acts[|acts| - 1].BeginTick? || (!acts[|acts| - 1].FinishTick? && InTick(acts[..|acts| - 1])))
  }

  /** Every tick is finished before the next begins. */
  ghost predicate WholeTicks(acts: seq<Action>) {
    acts == [] || (WholeTicks(acts[..|acts| - 1]) && (acts[|acts| - 1].BeginTick? ==> !InTick(acts[..|acts| - 1])))
  }

  /** How many ticks have begun since the last recompute, or since the room was created. */
  ghost function TicksSince(cfg: RoomConfig, acts: seq<Action>): nat {
    if acts == [] then 0
    else
      var front, last := acts[..|acts| - 1], acts[|acts| - 1];
      if Recomputes(After(cfg, front), cfg.cluster, last) then 0
      else TicksSince(cfg, front) + if last.BeginTick? then 1 else 0
  }

  // The end of a tick leaves no trigger pending.
  lemma FinishedQuiet(s: RoomState, cfg: RoomConfig, order: seq<PlayerID>, sorted: seq<ClusterPlayer>)
    requires cfg.cluster.enabled && ValidConfig(cfg.cluster) && TicksInRange(s)
    requires Due(s, cfg.cluster) ==> PossibleOrder(s, cfg.cluster, order, sorted)
    ensures var t := Finished(s, cfg, order, sorted);
      && t.maxMoveSq <= Square(cfg.cluster.movementThreshold) && !t.membershipDirty
  {
    SquareSign(cfg.cluster.movementThreshold);
    hide PossibleOrder, Clustering, Broadcast, Square;
    var c := Clustered(s, cfg.cluster, order, sorted);
    BroadcastKeeps(c, cfg);
  }

  // Only a recompute moves lastClusterTick, to the current tick; only a new tick moves the counter.
  lemma NextTicks(s: RoomState, cfg: RoomConfig, a: Action)
    ensures var t := Next(s, cfg, a);
      && t.tick == (if a.BeginTick? then Succ32(s.tick) else s.tick)
      && t.lastClusterTick == if Recomputes(s, cfg.cluster, a) then s.tick else s.lastClusterTick
  {
    hide LockRuns.Run, LockEventsOf, PossibleOrder, Clustering, Broadcast, SqDist;
    match a
    case FinishTick(order, sorted) =>
      BroadcastKeeps(Clustered(s, cfg.cluster, order, sorted), cfg);
      FinishKeeps(s, cfg, order, sorted);
    case Handle(cmd) => CommandMarksMembership(s, cmd);
    case _ =>
  }

  // One action, given that n ticks have begun since the last recompute.
  lemma TickCounted(s: RoomState, cfg: RoomConfig, a: Action, n: nat, inTick: bool)
    requires cfg.cluster.enabled && ValidConfig(cfg.cluster) && Legal(s, cfg, a) && TicksInRange(s)
    requires Sub32(s.tick, s.lastClusterTick) == n < Interval(cfg.cluster) + if inTick then 1 else 0
    requires a.BeginTick? ==> !inTick
    ensures var t := Next(s, cfg, a);
      var n' := if Recomputes(s, cfg.cluster, a) then 0 else n + if a.BeginTick? then 1 else 0;
      && TicksInRange(t) && Sub32(t.tick, t.lastClusterTick) == n'
      && n' < Interval(cfg.cluster) + if a.BeginTick? || (!a.FinishTick? && inTick) then 1 else 0
  {
    NextTicks(s, cfg, a);
    hide Next, PossibleOrder, Square;
  }

  /** The difference that the trigger reads is, along every run of whole ticks, the number of ticks that
      really passed, so its wrapping never hides a missed recompute. */
  lemma {:induction false} TicksCounted(cfg: RoomConfig, acts: seq<Action>)
    requires cfg.cluster.enabled && ValidConfig(cfg.cluster) && LegalRun(cfg, acts) && WholeTicks(acts)
    ensures TicksInRange(After(cfg, acts))
    ensures Sub32(After(cfg, acts).tick, After(cfg, acts).lastClusterTick) == TicksSince(cfg, acts)
    ensures TicksSince(cfg, acts) < Interval(cfg.cluster) + if InTick(acts) then 1 else 0
  {
    if acts != [] {
      var front, last := acts[..|acts| - 1], acts[|acts| - 1];
      TicksCounted(cfg, front);
      hide Next, Legal, Recomputes, Interval, Sub32;
      TickCounted(After(cfg, front), cfg, last, TicksSince(cfg, front), InTick(front));
    }
  }

  /** The player is within (moves * threshold) of where it was at the last recompute. */
  ghost predicate WithinMoves(w: Watch, s: RoomState, p: PlayerID, threshold: real)
    requires p in s.players && p in w.base
  {
    SqDist(w.base[p], s.players[p].Ground()) <= Square(MovesOf(w, p) as real * threshold)
  }

  /** After every tick, however often the tick counter has wrapped, fewer than R ticks have begun since
      the last recompute, and a player that moved m times since lies within m * MovementThreshold of its base. */
  lemma RecomputeBounds(cfg: RoomConfig, acts: seq<Action>, p: PlayerID)
    requires cfg.cluster.enabled && ValidConfig(cfg.cluster)
    requires LegalRun(cfg, acts) && acts != [] && acts[|acts| - 1].FinishTick?
    ensures WholeTicks(acts) ==> TicksSince(cfg, acts) < Interval(cfg.cluster)
    ensures var s, w := After(cfg, acts), WatchOf(cfg, acts);
      && w.base.Keys == s.players.Keys
      && (p in s.players ==> WithinMoves(w, s, p, cfg.cluster.movementThreshold))
  {
    hide WatchOf, WithinMoves, Finished, PossibleOrder, SqDist, Square, Reach, TicksSince;
    var front, last := acts[..|acts| - 1], acts[|acts| - 1];
    if WholeTicks(acts) {
      TicksCounted(cfg, acts);
    }
    TablesStayLinked(cfg, front);
    AlwaysDisplaced(cfg, acts);
    FinishedQuiet(After(cfg, front), cfg, last.order, last.sorted);
    assert After(cfg, acts) == Finished(After(cfg, front), cfg, last.order, last.sorted);
    QuietDistance(WatchOf(cfg, acts), After(cfg, acts), cfg.cluster.movementThreshold, p);
  }

  lemma QuietDistance(w: Watch, s: RoomState, threshold: real, p: PlayerID)
    requires Displaced(w, s) && !s.membershipDirty && s.maxMoveSq <= Square(threshold)
    ensures w.base.Keys == s.players.Keys
    ensures p in s.players ==> WithinMoves(w, s, p, threshold)
  {
    if p in s.players {
      assert Near(w, s, p);
      var m, limit := MovesOf(w, p), Square(threshold);
      hide SqDist, Square, Reach;
      ReachMonotone(m, s.maxMoveSq, limit);
      ReachIsSquare(m, threshold);
      assert SqDist(w.base[p], s.players[p].Ground()) <= Reach(m, limit);
      assert SqDist(w.base[p], s.players[p].Ground()) <= Square(m as real * threshold);
    }
  }

  // ----- When a tick recomputes --------------------------------------------------

  /** The action moves a present player to this ground position. */
  ghost function TargetOf(s: RoomState, a: Action): Option<(PlayerID, Pos)> {
    match a
    case Handle(PlayerInput(q, to, time)) =>
      if q in s.players && to.rotation != Quat(0.0, 0.0, 0.0, 0.0) && time > 0
      then Some((q, Pos(to.position.x, to.position.z))) else None
    case Handle(UpdatePlayerTransform(q, to)) =>
      if q in s.players then Some((q, Pos(to.position.x, to.position.z))) else None
    case _ => None
  }

  /** The longest single move since the last recompute, squared; 0 if there was none. */
  ghost function LongestMove(cfg: RoomConfig, acts: seq<Action>): real {
    if acts == [] then 0.0
    else
      var front, last := acts[..|acts| - 1], acts[|acts| - 1];
      var s, before := After(cfg, front), LongestMove(cfg, front);
      var target := TargetOf(s, last);
      if Recomputes(s, cfg.cluster, last) then 0.0
      else if target.None? || target.value.0 !in s.players then before
      else
        var length := SqDist(s.players[target.value.0].Ground(), target.value.1);
        if length > before then length else before
  }

  /** The action is an accepted join or detaches a session. */
  ghost predicate ChangesMembership(s: RoomState, a: Action) {
    match a
    case Handle(Join(_, _, user)) => user == "" || user !in s.users
    case Handle(Leave(x, _)) => x in s.sessions
    case Handle(Disconnect(x)) => x in s.sessions
    case _ => false
  }

  /** Somebody joined or left since the last recompute. */
  ghost predicate MembershipChanged(cfg: RoomConfig, acts: seq<Action>) {
    acts != [] && (
      var front, last := acts[..|acts| - 1], acts[|acts| - 1];
      && !Recomputes(After(cfg, front), cfg.cluster, last)
      && (MembershipChanged(cfg, front) || ChangesMembership(After(cfg, front), last)))
  }

  lemma CommandTriggers(s: RoomState, cmd: Command)
    ensures var t, target := WithoutLocks(s, cmd), TargetOf(s, Handle(cmd));
      && (t.membershipDirty <==> s.membershipDirty || ChangesMembership(s, Handle(cmd)))
      && (target.None? ==> t.maxMoveSq == s.maxMoveSq)
      && (target.Some? ==>
            && target.value.0 in s.players
            && var length := SqDist(s.players[target.value.0].Ground(), target.value.1);
               t.maxMoveSq == if length > s.maxMoveSq then length else s.maxMoveSq)
  {
    var target := TargetOf(s, Handle(cmd));
    if target.Some? {
      SqDistSymmetric(s.players[target.value.0].Ground(), target.value.1);
    }
    hide SqDist;
  }

  // Both triggers are what the actions since the last recompute make of them.
  lemma TriggersStep(s: RoomState, cfg: RoomConfig, a: Action)
    ensures var t, target := Next(s, cfg, a), TargetOf(s, a);
      && (Recomputes(s, cfg.cluster, a) ==> t.maxMoveSq == 0.0 && !t.membershipDirty)
      && (!Recomputes(s, cfg.cluster, a) ==>
            && (t.membershipDirty <==> s.membershipDirty || ChangesMembership(s, a))
            && (target.None? ==> t.maxMoveSq == s.maxMoveSq)
            && (target.Some? ==>
                  && target.value.0 in s.players
                  && var length := SqDist(s.players[target.value.0].Ground(), target.value.1);
                     t.maxMoveSq == if length > s.maxMoveSq then length else s.maxMoveSq))
  {
    hide LockRuns.Run, LockEventsOf, WithoutLocks, Clustering, PossibleOrder, ShouldRecompute, Broadcast, SqDist;
    match a
    case Handle(cmd) => CommandTriggers(s, cmd);
    case FinishTick(order, sorted) => BroadcastKeeps(Clustered(s, cfg.cluster, order, sorted), cfg);
    case _ =>
  }

  lemma {:induction false} TriggersTracked(cfg: RoomConfig, acts: seq<Action>)
    ensures After(cfg, acts).maxMoveSq == LongestMove(cfg, acts)
    ensures After(cfg, acts).membershipDirty <==> MembershipChanged(cfg, acts)
  {
    if acts != [] {
      var front := acts[..|acts| - 1];
      TriggersTracked(cfg, front);
      TriggersStep(After(cfg, front), cfg, acts[|acts| - 1]);
      hide Next, Recomputes, ChangesMembership, TargetOf, SqDist;
    }
  }

  /** What brings a recompute about: the interval has passed since the last one, a single move since was
      longer than MovementThreshold, or somebody joined or left since. */
  ghost predicate Triggers(cfg: RoomConfig, acts: seq<Action>) {
    || TicksSince(cfg, acts) >= cfg.cluster.reclusterIntervalTicks % UINT32
    || cfg.cluster.movementThreshold < 0.0
    || LongestMove(cfg, acts) > Square(cfg.cluster.movementThreshold)
    || MembershipChanged(cfg, acts)
  }

  // What finishing a tick does to the clusters.
  lemma FinishClusters(s: RoomState, cfg: RoomConfig, a: Action)
    requires a.FinishTick? && Legal(s, cfg, a)
    ensures var t := Next(s, cfg, a);
      if Due(s, cfg.cluster) then
        && (forall id :: id in a.order ==> id in s.players)
        && var valid := ValidPlayers(ClusterInput(s.players, a.order), cfg.cluster.maxPlayersPerRoom);
        && |a.sorted| == |valid|
        && t.cluster == Clustering(valid, a.sorted, cfg.cluster, s.previous)
        && t.previous == Some(t.cluster) && t.lastClusterTick == t.tick == s.tick
      else t.cluster == s.cluster && t.previous == s.previous && t.lastClusterTick == s.lastClusterTick
  {
    hide Clustering, ShouldRecompute, Broadcast, ValidPlayers, ClusterInput, IsSortOf;
    BroadcastKeeps(Clustered(s, cfg.cluster, a.order, a.sorted), cfg);
  }

  /** Over every run of whole ticks of a clustering room with a valid config, the end of a tick recomputes if
      and only if one of the three triggers holds: then the clusters are the allocator's answer on the current
      players and the tick is recorded; otherwise clusters, allocator and recorded tick stay as they are. */
  lemma RecomputesExactly(cfg: RoomConfig, acts: seq<Action>, a: Action)
    requires cfg.cluster.enabled && ValidConfig(cfg.cluster)
    requires LegalRun(cfg, acts) && WholeTicks(acts) && a.FinishTick? && Legal(After(cfg, acts), cfg, a)
    ensures Recomputes(After(cfg, acts), cfg.cluster, a) <==> Triggers(cfg, acts)
    ensures var s, t := After(cfg, acts), After(cfg, acts + [a]);
      if Triggers(cfg, acts) then
        && (forall id :: id in a.order ==> id in s.players)
        && var valid := ValidPlayers(ClusterInput(s.players, a.order), cfg.cluster.maxPlayersPerRoom);
        && |a.sorted| == |valid|
        && t.cluster == Clustering(valid, a.sorted, cfg.cluster, s.previous)
        && t.previous == Some(t.cluster) && t.lastClusterTick == t.tick == s.tick
      else t.cluster == s.cluster && t.previous == s.previous && t.lastClusterTick == s.lastClusterTick
  {
    TicksCounted(cfg, acts);
    TriggersTracked(cfg, acts);
    AppendAction(cfg, acts, a);
    var s := After(cfg, acts);
    hide After, LegalRun, WholeTicks, TicksSince, LongestMove, MembershipChanged, Square;
    assert Due(s, cfg.cluster) <==> Triggers(cfg, acts);
    FinishClusters(s, cfg, a);
    hide Next, Due, Clustering, ValidPlayers, ClusterInput;
  }

  /** A room that does not cluster, or whose config is invalid, never touches its clusters. */
  lemma NeverRecomputes(cfg: RoomConfig, s: RoomState, a: Action)
    requires !cfg.cluster.enabled || !ValidConfig(cfg.cluster)
    ensures var t := Next(s, cfg, a);
      t.cluster == s.cluster && t.previous == s.previous && t.lastClusterTick == s.lastClusterTick
  {
    hide LockRuns.Run, LockEventsOf, WithoutLocks, Broadcast;
    match a
    case Handle(cmd) => CommandKeepsClusters(s, cmd);
    case FinishTick(_, _) => BroadcastKeeps(s, cfg);
    case _ =>
  }
}
