// Why a player ID must not be reused between two broadcasts: a run in which a client is
// left with a player's former position, although every batch was delivered.

module Rejoin {
  import opened Common
  import opened Geometry
  import opened Players
  import opened Delta
  import LockRuns
  import opened RoomModel
  import opened RoomInvariants
  import opened Replication

  // ----- Deltas can always be sent -----------------------------------------------

  lemma {:induction false} ListSightings(m: Client) returns (l: seq<Sighting>)
    ensures AsMap(l) == m && |l| == |m|
    decreases |m|
  {
    if m == map[] {
      l := [];
    } else {
      var id :| id in m;
      var rest := m - {id};
      assert m.Keys == rest.Keys + {id};
      assert |m| == |m.Keys| && |rest| == |rest.Keys|;
      var front := ListSightings(rest);
      l := front + [Sighting(id, m[id])];
      AsMapAppend(front, Sighting(id, m[id]));
      assert rest[id := m[id]] == m;
    }
  }

  lemma DeltaExists(tick: nat, visible: set<PlayerID>, snap: Snapshot, players: Client) returns (d: PlayerDelta)
    ensures d.tick == tick && IsDelta(d, visible, snap, players)
  {
    var enters := ListSightings(EntersFor(visible, snap, players));
    var updates := ListSightings(UpdatesFor(visible, snap, players));
    var leaves := ListOf(snap.Keys - visible);
    d := PlayerDelta(tick, enters, updates, leaves);
  }

  ghost predicate Suits(c: RoomState, cfg: RoomConfig, x: SessionID, d: PlayerDelta)
    requires Served(c, x)
  {
    d.tick == c.tick && IsDelta(d, Visible(c, cfg, c.sessions[x].player), SnapshotOf(c, x), c.players)
  }

  lemma BatchesExist(s: RoomState, cfg: RoomConfig, a: Action) returns (batches: Batches)
    ensures Sends(s, cfg, a, batches)
  {
    hide IsDelta, Visible, IsBroadcastTick, BroadcastState;
    batches := map[];
    if Broadcasts(s, cfg, a) {
      var c := BroadcastState(s, cfg, a);
      forall x | x in c.sessions && Served(c, x)
        ensures exists d :: Suits(c, cfg, x, d)
      {
        var d := DeltaExists(c.tick, Visible(c, cfg, c.sessions[x].player), SnapshotOf(c, x), c.players);
        assert Suits(c, cfg, x, d);
      }
      batches := map x | x in c.sessions && Served(c, x) :: var d :| Suits(c, cfg, x, d); d;
    }
  }

  /** Every run has batches to go with it. */
  lemma {:induction false} EveryRunCanBeSent(cfg: RoomConfig, acts: seq<Action>) returns (sent: seq<Batches>)
    ensures SentRun(cfg, acts, sent)
  {
    if acts == [] {
      sent := [];
    } else {
      var last := |acts| - 1;
      var before := EveryRunCanBeSent(cfg, acts[..last]);
      var batches := BatchesExist(After(cfg, acts[..last]), cfg, acts[last]);
      sent := before + [batches];
      assert sent[..last] == before;
    }
  }

  // ----- Following a run step by step --------------------------------------------

  lemma {:induction false} SentPrefix(cfg: RoomConfig, acts: seq<Action>, sent: seq<Batches>, n: nat)
    requires SentRun(cfg, acts, sent) && n < |acts|
    ensures SentRun(cfg, acts[..n], sent[..n]) && Sends(After(cfg, acts[..n]), cfg, acts[n], sent[n])
    decreases |acts|
  {
    hide Sends, After;
    var last := |acts| - 1;
    if n < last {
      SentPrefix(cfg, acts[..last], sent[..last], n);
      assert acts[..last][..n] == acts[..n] && sent[..last][..n] == sent[..n];
    }
  }

  lemma StepOf(cfg: RoomConfig, acts: seq<Action>, sent: seq<Batches>, n: nat)
    requires n < |acts| == |sent|
    ensures After(cfg, acts[..n + 1]) == Next(After(cfg, acts[..n]), cfg, acts[n])
    ensures ReplicaAfter(cfg, acts[..n + 1], sent[..n + 1])
         == Followed(ReplicaAfter(cfg, acts[..n], sent[..n]), After(cfg, acts[..n]), cfg, acts[n], sent[n])
  {
    hide Next, Followed;
    assert acts[..n + 1][..n] == acts[..n] && sent[..n + 1][..n] == sent[..n];
  }

  // Without clustering nothing depends on the orders chosen.
  lemma {:induction false} RadiusRunsAreLegal(cfg: RoomConfig, acts: seq<Action>)
    requires !cfg.cluster.enabled
    ensures LegalRun(cfg, acts)
  {
    if acts != [] {
      RadiusRunsAreLegal(cfg, acts[..|acts| - 1]);
    }
  }

  // ----- The run -----------------------------------------------------------------

  /** A watcher and a visitor join; the visitor moves and is broadcast, reconnects under the same player ID,
      moves elsewhere and is broadcast again. */
  ghost function RejoinRun(x: SessionID, y: SessionID, p: PlayerID, q: PlayerID, first: PlayerTransform,
                           second: PlayerTransform): seq<Action>
  {
    [BeginTick(0), Handle(Join(x, p, "")), Handle(Join(y, q, "")),
     Handle(UpdatePlayerTransform(q, first)), FinishTick([], []),
     BeginTick(0), Handle(Disconnect(y)), Handle(Join(y, q, "")),
     Handle(UpdatePlayerTransform(q, second)), FinishTick([], [])]
  }

  /** A room in radius mode that broadcasts every tick. */
  ghost predicate Chatty(cfg: RoomConfig) {
    !cfg.cluster.enabled && cfg.broadcastRateHz >= cfg.tickRateHz > 0 && cfg.visualRadiusM > 0.0
  }

  /** A transform in plain sight of the spawn point. */
  ghost predicate NearSpawn(cfg: RoomConfig, to: PlayerTransform) {
    var ground := Pos(to.position.x, to.position.z);
    InBounds(ground) && SqDist(Pos(0.0, 0.0), ground) <= Square(cfg.visualRadiusM)
  }

  /** The watcher is at the spawn point, the visitor has moved once since joining. */
  ghost predicate Facing(s: RoomState, x: SessionID, y: SessionID, p: PlayerID, q: PlayerID, to: PlayerTransform) {
    && s.sessions == map[x := Attachment(p, ""), y := Attachment(q, "")]
    && s.players.Keys == {p, q} && s.players[p] == JOINED
    && s.players[q].transform.position == to.position && s.players[q].version == 1
    && p in s.indexed && q in s.indexed && s.indexed[q] == Pos(to.position.x, to.position.z)
  }

  lemma FacingSees(s: RoomState, cfg: RoomConfig, x: SessionID, y: SessionID, p: PlayerID, q: PlayerID,
                   to: PlayerTransform)
    requires Facing(s, x, y, p, q, to) && Chatty(cfg) && NearSpawn(cfg, to) && p != q
    requires s.indexed.Keys == s.players.Keys
    ensures Visible(s, cfg, p) == {q}
  {
    hide SqDist, Square;
    assert s.players[p].Ground() == Pos(0.0, 0.0);
  }

  // The visitor comes in and moves.
  lemma VisitFaces(s: RoomState, cfg: RoomConfig, x: SessionID, y: SessionID, p: PlayerID, q: PlayerID,
                   to: PlayerTransform)
    requires x != y && p != q && NearSpawn(cfg, to)
    requires s.sessions == map[x := Attachment(p, "")] && s.players == map[p := JOINED] && p in s.indexed
    ensures Facing(Handled(Handled(s, cfg, Join(y, q, "")), cfg, UpdatePlayerTransform(q, to)), x, y, p, q, to)
  {
    hide SqDist, LockRuns.Run, LockEventsOf;
    var t := Handled(s, cfg, Join(y, q, ""));
    assert t.players == map[p := JOINED, q := JOINED];
  }

  // The visitor goes, leaving the watcher alone.
  lemma DisconnectLeaves(s: RoomState, cfg: RoomConfig, x: SessionID, y: SessionID, p: PlayerID, q: PlayerID,
                         to: PlayerTransform)
    requires x != y && p != q && Facing(s, x, y, p, q, to)
    ensures var t := Handled(s, cfg, Disconnect(y));
      t.sessions == map[x := Attachment(p, "")] && t.players == map[p := JOINED] && p in t.indexed
  {
    hide LockRuns.Run;
  }

  // Broadcasting changes only snapshots here.
  lemma FinishFaces(s: RoomState, cfg: RoomConfig, x: SessionID, y: SessionID, p: PlayerID, q: PlayerID,
                    to: PlayerTransform)
    requires Facing(s, x, y, p, q, to)
    ensures Facing(Next(s, cfg, FinishTick([], [])), x, y, p, q, to)
  {
    hide Finished;
    FinishKeeps(s, cfg, [], []);
  }

  // ----- The client --------------------------------------------------------------

  lemma UnservedKeepsClient(r: Replica, s: RoomState, cfg: RoomConfig, a: Action, batches: Batches, x: SessionID)
    requires !a.FinishTick? && x in Next(s, cfg, a).snapshots
    ensures x in Followed(r, s, cfg, a, batches).clients
    ensures Followed(r, s, cfg, a, batches).clients[x] == if x in r.clients then r.clients[x] else map[]
  {
    hide Next, ByTheRules;
  }

  lemma ChattyBroadcasts(s: RoomState, cfg: RoomConfig)
    requires Chatty(cfg)
    ensures Broadcasts(s, cfg, FinishTick([], [])) && BroadcastState(s, cfg, FinishTick([], [])) == s
  {
    hide PossibleOrder, Recomputed;
  }

  /** What a broadcast leaves a client with of `q`: its entry if the versions agree, else the current state. */
  ghost predicate Delivered(before: Client, after: Client, players: Client, q: PlayerID) {
    && q in players && q in after
    && after[q] == if q in before && before[q].version == players[q].version then before[q] else players[q]
  }

  lemma WatcherAfterBroadcast(r: Replica, s: RoomState, cfg: RoomConfig, batches: Batches, x: SessionID, y: SessionID,
                              p: PlayerID, q: PlayerID, to: PlayerTransform)
    requires Facing(s, x, y, p, q, to) && Chatty(cfg) && NearSpawn(cfg, to) && x != y && p != q
    requires Linked(s) && Following(r, s) && Sends(s, cfg, FinishTick([], []), batches)
    ensures var r' := Followed(r, s, cfg, FinishTick([], []), batches);
      x in r.clients && x in r'.clients && Delivered(r.clients[x], r'.clients[x], s.players, q)
  {
    hide IsDelta, Visible, Apply, Followed, Next, Sends, NearSpawn, Chatty, BroadcastState, Broadcasts;
    var a := FinishTick([], []);
    FacingSees(s, cfg, x, y, p, q, to);
    ChattyBroadcasts(s, cfg);
    FollowedClient(r, s, cfg, a, batches, x);
    assert Served(s, x);
    hide Facing, Linked, Served, SnapshotOf;
    AppliedEntry(r.clients[x], batches[x], {q}, s.snapshots[x], s.players, q);
  }

  // ----- The run step by step ----------------------------------------------------

  lemma RunActions(x: SessionID, y: SessionID, p: PlayerID, q: PlayerID, first: PlayerTransform,
                   second: PlayerTransform)
    ensures var run := RejoinRun(x, y, p, q, first, second);
      && |run| == 10 && run[0] == run[5] == BeginTick(0) && run[1] == Handle(Join(x, p, ""))
      && run[2] == run[7] == Handle(Join(y, q, "")) && run[3] == Handle(UpdatePlayerTransform(q, first))
      && run[4] == run[9] == FinishTick([], []) && run[6] == Handle(Disconnect(y))
      && run[8] == Handle(UpdatePlayerTransform(q, second))
  {
  }

  lemma StateStep(cfg: RoomConfig, acts: seq<Action>, n: nat)
    requires n < |acts|
    ensures After(cfg, acts[..n + 1]) == Next(After(cfg, acts[..n]), cfg, acts[n]) && After(cfg, acts[..0]) == INITIAL
  {
    hide Next;
    assert acts[..n + 1][..n] == acts[..n];
  }

  /** Where the run stands around its first broadcast. */
  ghost predicate MeetOnce(cfg: RoomConfig, run: seq<Action>, x: SessionID, y: SessionID, p: PlayerID, q: PlayerID,
                           first: PlayerTransform)
    requires |run| == 10
  {
    && x in After(cfg, run[..2]).sessions && x in After(cfg, run[..3]).sessions
    && Facing(After(cfg, run[..4]), x, y, p, q, first) && Facing(After(cfg, run[..5]), x, y, p, q, first)
  }

  /** Where it stands around its second. */
  ghost predicate MeetAgain(cfg: RoomConfig, run: seq<Action>, x: SessionID, y: SessionID, p: PlayerID, q: PlayerID,
                            second: PlayerTransform)
    requires |run| == 10
  {
    && x in After(cfg, run[..6]).sessions && x in After(cfg, run[..7]).sessions && x in After(cfg, run[..8]).sessions
    && Facing(After(cfg, run[..9]), x, y, p, q, second) && Facing(After(cfg, run), x, y, p, q, second)
  }

  lemma NextIs(s: RoomState, cfg: RoomConfig, a: Action)
    ensures a.BeginTick? ==> Next(s, cfg, a) == Begun(s, cfg, a.now)
    ensures a.Handle? ==> Next(s, cfg, a) == Handled(s, cfg, a.cmd)
  {
    hide Begun, Handled, Finished;
  }

  lemma RunStep(cfg: RoomConfig, acts: seq<Action>, n: nat)
    requires n < |acts|
    ensures var s := After(cfg, acts[..n]);
      After(cfg, acts[..n + 1]) ==
        match acts[n]
        case BeginTick(now) => Begun(s, cfg, now)
        case Handle(cmd) => Handled(s, cfg, cmd)
        case a => Next(s, cfg, a)
  {
    StateStep(cfg, acts, n);
    NextIs(After(cfg, acts[..n]), cfg, acts[n]);
    hide After, Next, Begun, Handled;
  }

  lemma StatesBefore(cfg: RoomConfig, x: SessionID, y: SessionID, p: PlayerID, q: PlayerID, first: PlayerTransform,
                     second: PlayerTransform)
    requires x != y && p != q && NearSpawn(cfg, first)
    ensures var run := RejoinRun(x, y, p, q, first, second);
      |run| == 10 && MeetOnce(cfg, run, x, y, p, q, first)
  {
    hide RejoinRun, After, Next, Facing, Handled, Begun, NearSpawn;
    var run := RejoinRun(x, y, p, q, first, second);
    RunActions(x, y, p, q, first, second);
    StateStep(cfg, run, 0);
    RunStep(cfg, run, 0);
    RunStep(cfg, run, 1);
    RunStep(cfg, run, 2);
    RunStep(cfg, run, 3);
    RunStep(cfg, run, 4);
    OpeningState(cfg, x, p);
    VisitFaces(After(cfg, run[..2]), cfg, x, y, p, q, first);
    VisitKeepsWatcher(After(cfg, run[..2]), cfg, x, y, q);
    FinishFaces(After(cfg, run[..4]), cfg, x, y, p, q, first);
  }

  lemma StatesAfter(cfg: RoomConfig, x: SessionID, y: SessionID, p: PlayerID, q: PlayerID, first: PlayerTransform,
                    second: PlayerTransform)
    requires x != y && p != q && NearSpawn(cfg, second)
    requires var run := RejoinRun(x, y, p, q, first, second); |run| == 10 && MeetOnce(cfg, run, x, y, p, q, first)
    ensures MeetAgain(cfg, RejoinRun(x, y, p, q, first, second), x, y, p, q, second)
  {
    hide RejoinRun, After, Next, Facing, Handled, Begun, NearSpawn;
    var run := RejoinRun(x, y, p, q, first, second);
    RunActions(x, y, p, q, first, second);
    RunStep(cfg, run, 5);
    RunStep(cfg, run, 6);
    RunStep(cfg, run, 7);
    RunStep(cfg, run, 8);
    RunStep(cfg, run, 9);
    assert run[..10] == run;
    BeginFaces(After(cfg, run[..5]), cfg, x, y, p, q, first);
    DisconnectLeaves(After(cfg, run[..6]), cfg, x, y, p, q, first);
    VisitFaces(After(cfg, run[..7]), cfg, x, y, p, q, second);
    VisitKeepsWatcher(After(cfg, run[..7]), cfg, x, y, q);
    FinishFaces(After(cfg, run[..9]), cfg, x, y, p, q, second);
  }

  lemma VisitKeepsWatcher(s: RoomState, cfg: RoomConfig, x: SessionID, y: SessionID, q: PlayerID)
    requires x in s.sessions
    ensures x in Handled(s, cfg, Join(y, q, "")).sessions
  {
    hide LockRuns.Run;
  }

  lemma BeginFaces(s: RoomState, cfg: RoomConfig, x: SessionID, y: SessionID, p: PlayerID, q: PlayerID,
                   to: PlayerTransform)
    requires Facing(s, x, y, p, q, to)
    ensures Facing(Begun(s, cfg, 0), x, y, p, q, to) && x in Begun(s, cfg, 0).sessions
  {
    hide LockRuns.Run;
  }

  lemma OpeningState(cfg: RoomConfig, x: SessionID, p: PlayerID)
    ensures var t := Handled(Begun(INITIAL, cfg, 0), cfg, Join(x, p, ""));
      t.sessions == map[x := Attachment(p, "")] && t.players == map[p := JOINED] && p in t.indexed
  {
    hide LockRuns.Run;
  }

  // The broadcast at step n, from a state in which the two face each other.
  lemma Meeting(cfg: RoomConfig, acts: seq<Action>, sent: seq<Batches>, n: nat, x: SessionID, y: SessionID,
                p: PlayerID, q: PlayerID, to: PlayerTransform)
    requires Chatty(cfg) && x != y && p != q && NearSpawn(cfg, to) && SentRun(cfg, acts, sent)
    requires n < |acts| && acts[n] == FinishTick([], []) && Facing(After(cfg, acts[..n]), x, y, p, q, to)
    ensures var before, after :=
      ReplicaAfter(cfg, acts[..n], sent[..n]), ReplicaAfter(cfg, acts[..n + 1], sent[..n + 1]);
      && x in before.clients && x in after.clients
      && Delivered(before.clients[x], after.clients[x], After(cfg, acts[..n]).players, q)
  {
    StepOf(cfg, acts, sent, n);
    RadiusRunsAreLegal(cfg, acts[..n]);
    SentPrefix(cfg, acts, sent, n);
    TablesStayLinked(cfg, acts[..n]);
    hide After, ReplicaAfter, SentRun, LegalRun, Followed, Sends, Facing, NearSpawn, Linked, Following, Faithful;
    ReplicaConsistent(cfg, acts[..n], sent[..n]);
    WatcherAfterBroadcast(ReplicaAfter(cfg, acts[..n], sent[..n]), After(cfg, acts[..n]), cfg, sent[n], x, y, p, q, to);
  }

  // Between broadcasts the watcher's client does not change.
  lemma {:induction false} ClientWaits(cfg: RoomConfig, acts: seq<Action>, sent: seq<Batches>, start: nat, end: nat,
                                       x: SessionID)
    requires start <= end <= |acts| == |sent| && x in ReplicaAfter(cfg, acts[..start], sent[..start]).clients
    requires forall i :: start <= i < end ==> !acts[i].FinishTick?
    requires forall i :: start < i <= end ==> x in After(cfg, acts[..i]).sessions
    ensures x in ReplicaAfter(cfg, acts[..end], sent[..end]).clients
    ensures ReplicaAfter(cfg, acts[..end], sent[..end]).clients[x]
      == ReplicaAfter(cfg, acts[..start], sent[..start]).clients[x]
    decreases end
  {
    hide After, ReplicaAfter, Followed, Next;
    if start < end {
      var n := end - 1;
      ClientWaits(cfg, acts, sent, start, n, x);
      StepOf(cfg, acts, sent, n);
      TablesStayLinked(cfg, acts[..end]);
      UnservedKeepsClient(ReplicaAfter(cfg, acts[..n], sent[..n]), After(cfg, acts[..n]), cfg, acts[n], sent[n], x);
    }
  }

  lemma ClientStartsEmpty(cfg: RoomConfig, acts: seq<Action>, sent: seq<Batches>, x: SessionID)
    requires 2 <= |acts| == |sent| && acts[0].BeginTick? && acts[1].Handle? && x in After(cfg, acts[..2]).sessions
    ensures var r := ReplicaAfter(cfg, acts[..2], sent[..2]); x in r.clients && r.clients[x] == map[]
  {
    StepOf(cfg, acts, sent, 0);
    StepOf(cfg, acts, sent, 1);
    TablesStayLinked(cfg, acts[..2]);
    assert acts[..0] == [] && sent[..0] == [];
    FollowedBasics(NOBODY, INITIAL, cfg, acts[0], sent[0]);
    hide Followed;
    var r := ReplicaAfter(cfg, acts[..1], sent[..1]);
    assert r.clients.Keys == {};
    UnservedKeepsClient(r, After(cfg, acts[..1]), cfg, acts[1], sent[1], x);
  }

  /** The client of session x shows q, whom its player p sees, at a former position. */
  ghost predicate Stale(s: RoomState, cfg: RoomConfig, r: Replica, x: SessionID, p: PlayerID, q: PlayerID,
                        former: Vec3, current: Vec3)
  {
    && x in s.sessions && s.sessions[x].player == p
    && q in Visible(s, cfg, p) && q in s.players && s.players[q].transform.position == current
    && x in r.clients && q in r.clients[x] && r.clients[x][q].transform.position == former
    && r.clients[x] != Restrict(s.players, Visible(s, cfg, p))
  }

  /** Reusing a player ID between two broadcasts breaks replication: the returning visitor restarts at version
      0, one move brings it back to the version last sent, and the watcher, served every batch, keeps the
      visitor's former position. */
  lemma RejoinGoesUnnoticed(cfg: RoomConfig, x: SessionID, y: SessionID, p: PlayerID, q: PlayerID,
                            first: PlayerTransform, second: PlayerTransform, sent: seq<Batches>)
    requires Chatty(cfg) && x != y && p != q && NearSpawn(cfg, first) && NearSpawn(cfg, second)
    requires first.position != second.position && SentRun(cfg, RejoinRun(x, y, p, q, first, second), sent)
    ensures var run := RejoinRun(x, y, p, q, first, second);
      && LegalRun(cfg, run)
      && Stale(After(cfg, run), cfg, ReplicaAfter(cfg, run, sent), x, p, q, first.position, second.position)
  {
    hide RejoinRun, LegalRun, Stale, After, NearSpawn, Facing, MeetAgain;
    var run := RejoinRun(x, y, p, q, first, second);
    RunActions(x, y, p, q, first, second);
    assert |sent| == 10;
    hide SentRun;
    RadiusRunsAreLegal(cfg, run);
    StatesBefore(cfg, x, y, p, q, first, second);
    StatesAfter(cfg, x, y, p, q, first, second);
    hide Chatty, MeetOnce;
    FirstMeeting(cfg, run, sent, x, y, p, q, first);
    SecondMeeting(cfg, run, sent, x, y, p, q, first.position, second);
  }

  lemma FirstMeeting(cfg: RoomConfig, run: seq<Action>, sent: seq<Batches>, x: SessionID, y: SessionID,
                     p: PlayerID, q: PlayerID, first: PlayerTransform)
    requires Chatty(cfg) && x != y && p != q && NearSpawn(cfg, first)
    requires |run| == |sent| == 10 && run[0].BeginTick? && run[1].Handle? && run[2].Handle? && run[3].Handle?
    requires run[4] == FinishTick([], [])
    requires SentRun(cfg, run, sent) && MeetOnce(cfg, run, x, y, p, q, first)
    ensures HoldsVisitor(ReplicaAfter(cfg, run[..5], sent[..5]), x, q, first.position)
  {
    hide After, ReplicaAfter, SentRun, NearSpawn, Chatty;
    ClientStartsEmpty(cfg, run, sent, x);
    ClientWaits(cfg, run, sent, 2, 4, x);
    Meeting(cfg, run, sent, 4, x, y, p, q, first);
  }

  /** The client's entry for q is at this position, at version 1. */
  ghost predicate HoldsVisitor(r: Replica, x: SessionID, q: PlayerID, at: Vec3) {
    x in r.clients && q in r.clients[x] && r.clients[x][q].transform.position == at && r.clients[x][q].version == 1
  }

  lemma SecondMeeting(cfg: RoomConfig, run: seq<Action>, sent: seq<Batches>, x: SessionID, y: SessionID,
                      p: PlayerID, q: PlayerID, former: Vec3, second: PlayerTransform)
    requires Chatty(cfg) && x != y && p != q && NearSpawn(cfg, second)
    requires |run| == |sent| == 10 && run[5].BeginTick? && run[6].Handle? && run[7].Handle? && run[8].Handle?
    requires run[9] == FinishTick([], [])
    requires SentRun(cfg, run, sent) && MeetAgain(cfg, run, x, y, p, q, second) && former != second.position
    requires HoldsVisitor(ReplicaAfter(cfg, run[..5], sent[..5]), x, q, former)
    ensures Stale(After(cfg, run), cfg, ReplicaAfter(cfg, run, sent), x, p, q, former, second.position)
  {
    hide After, ReplicaAfter, SentRun, NearSpawn, Chatty;
    assert run[..10] == run && sent[..10] == sent;
    ClientWaits(cfg, run, sent, 5, 9, x);
    Meeting(cfg, run, sent, 9, x, y, p, q, second);
    TablesStayLinked(cfg, run);
    FacingSees(After(cfg, run), cfg, x, y, p, q, second);
  }
}
