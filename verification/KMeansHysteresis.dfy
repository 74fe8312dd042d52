// Hysteresis stops flicker: fed the same players again and again, the allocator's
// answer stands still from the third call on, and everyone's centroid from the second.

module KMeansHysteresis {
  import opened Common
  import opened Geometry
  import opened KMeans
  import opened KMeansOutput
  import opened KMeansOrder

  /** The reassignment rule, on distances: a known player takes its new centroid only if that is closer
      than the old one by more than the margin; otherwise it stays with the centroid nearest to the old. */
  lemma ReassignmentRule(p: ClusterPlayer, mine: nat, cs: seq<Pos>, prev: ClusterOutput, margin: real, distNew: real,
                         distOld: real)
    requires mine < |cs| && margin > 0.0 && distNew >= 0.0 && distOld >= 0.0
    requires p.id in prev.assignments && prev.assignments[p.id] in prev.centroids
    requires Square(distNew) == SqDist(p.pos, cs[mine])
    requires Square(distOld) == SqDist(p.pos, prev.centroids[prev.assignments[p.id]])
    ensures distNew < distOld - margin ==> Stabilise(p, mine, cs, prev, margin) == mine
    ensures distNew >= distOld - margin ==>
      IsNearest(prev.centroids[prev.assignments[p.id]], cs, Stabilise(p, mine, cs, prev, margin))
  {
    hide IsNearest, SqDist;
    StaysWithinIsDistanceTest(distNew, distOld, margin);
    NearestIsNearest(prev.centroids[prev.assignments[p.id]], cs);
  }

  /** A player's next cluster when its previous one was x and the centroids did not move. */
  ghost function Reconsider(pos: Pos, mine: nat, cs: seq<Pos>, x: nat, margin: real): (r: nat)
    requires mine < |cs| && x < |cs|
    ensures r < |cs|
  {
    if StaysWithin(SqDist(pos, cs[mine]), SqDist(pos, cs[x]), margin) then Nearest(cs[x], cs) else mine
  }

  lemma NearestToOwn(cs: seq<Pos>, x: nat)
    requires x < |cs|
    ensures cs[Nearest(cs[x], cs)] == cs[x]
  {
    NearestIsNearest(cs[x], cs);
    assert SqDist(cs[x], cs[Nearest(cs[x], cs)]) <= SqDist(cs[x], cs[x]);
  }

  // One reconsideration fixes the position, two fix the index.
  lemma ReconsiderSettles(pos: Pos, mine: nat, cs: seq<Pos>, x: nat, margin: real)
    requires mine < |cs| && x < |cs|
    ensures var y := Reconsider(pos, mine, cs, x, margin);
      var z := Reconsider(pos, mine, cs, y, margin);
      cs[z] == cs[y] && Reconsider(pos, mine, cs, z, margin) == z
  {
    hide StaysWithin, Nearest;
    NearestToOwn(cs, x);
    NearestToOwn(cs, mine);
    StaysWithinSelf(SqDist(pos, cs[mine]), margin);
  }

  /** Both outputs assign the player, to centroids at one position. */
  ghost predicate SameCentroid(x: ClusterOutput, y: ClusterOutput, id: PlayerID) {
    && id in x.assignments && x.assignments[id] in x.centroids
    && id in y.assignments && y.assignments[id] in y.centroids
    && x.centroids[x.assignments[id]] == y.centroids[y.assignments[id]]
  }

  // ----- Repeated calls ----------------------------------------------------------

  /** The output after n + 1 calls with one input, from an arbitrary allocator state. */
  ghost function Repeat(valid: seq<ClusterPlayer>, sorted: seq<ClusterPlayer>, cfg: ClusterConfig,
                        prev: Option<ClusterOutput>, n: nat): ClusterOutput
    requires ValidConfig(cfg) && 0 < |valid| == |sorted|
  {
    if n == 0 then Clustering(valid, sorted, cfg, prev)
    else Clustering(valid, sorted, cfg, Some(Repeat(valid, sorted, cfg, prev, n - 1)))
  }

  // Later calls keep the players, the centroids and K; each assignment is reconsidered.
  lemma RepeatStep(valid: seq<ClusterPlayer>, sorted: seq<ClusterPlayer>, cfg: ClusterConfig,
                   prev: Option<ClusterOutput>, n: nat, id: PlayerID)
    requires ValidConfig(cfg) && 0 < |valid| == |sorted| && cfg.membershipHysteresis > 0.0
    requires id in IDs(valid)
    ensures var s := LloydResult(valid, sorted, cfg).final;
      var x, y := Repeat(valid, sorted, cfg, prev, n), Repeat(valid, sorted, cfg, prev, n + 1);
      var i := LastOf(valid, id);
      && x.assignments.Keys == y.assignments.Keys == IDs(valid)
      && x.centroids == y.centroids == (map c: nat | 0 <= c < |s.centroids| :: s.centroids[c])
      && x.assignments[id] < |s.centroids|
      && y.assignments[id]
         == Reconsider(valid[i].pos, s.assignment[i], s.centroids, x.assignments[id], cfg.membershipHysteresis)
  {
    hide LloydResult, Stabilise;
    var s := LloydResult(valid, sorted, cfg).final;
    var x, y := Repeat(valid, sorted, cfg, prev, n), Repeat(valid, sorted, cfg, prev, n + 1);
    var before := if n == 0 then prev else Some(Repeat(valid, sorted, cfg, prev, n - 1));
    assert x == Clustering(valid, sorted, cfg, before) && y == Clustering(valid, sorted, cfg, Some(x));
    AssignmentMapLookup(valid, Hysteresis(valid, s, before, cfg.membershipHysteresis));
    AssignmentMapLookup(valid, Hysteresis(valid, s, Some(x), cfg.membershipHysteresis));
    var i := LastOf(valid, id);
    StabiliseIsReconsider(valid[i], s.assignment[i], s.centroids, x, cfg.membershipHysteresis);
  }

  lemma StabiliseIsReconsider(p: ClusterPlayer, mine: nat, cs: seq<Pos>, prev: ClusterOutput, margin: real)
    requires mine < |cs| && p.id in prev.assignments && prev.assignments[p.id] < |cs|
    requires prev.centroids == map c: nat | 0 <= c < |cs| :: cs[c]
    ensures Stabilise(p, mine, cs, prev, margin) == Reconsider(p.pos, mine, cs, prev.assignments[p.id], margin)
  {
  }

  lemma {:induction false} RepeatSettles(valid: seq<ClusterPlayer>, sorted: seq<ClusterPlayer>, cfg: ClusterConfig,
                                         prev: Option<ClusterOutput>, n: nat, id: PlayerID)
    requires ValidConfig(cfg) && 0 < |valid| == |sorted| && cfg.membershipHysteresis > 0.0
    requires n >= 2 && id in IDs(valid)
    ensures var second, third, later :=
      Repeat(valid, sorted, cfg, prev, 1), Repeat(valid, sorted, cfg, prev, 2), Repeat(valid, sorted, cfg, prev, n);
      && id in later.assignments && id in third.assignments && later.assignments[id] == third.assignments[id]
      && later.centroids == second.centroids
      && SameCentroid(second, later, id)
    decreases n
  {
    hide Repeat, LloydResult, Reconsider;
    var s := LloydResult(valid, sorted, cfg).final;
    var i := LastOf(valid, id);
    var first := Repeat(valid, sorted, cfg, prev, 0);
    RepeatStep(valid, sorted, cfg, prev, 0, id);
    RepeatStep(valid, sorted, cfg, prev, 1, id);
    ReconsiderSettles(valid[i].pos, s.assignment[i], s.centroids, first.assignments[id], cfg.membershipHysteresis);
    if n > 2 {
      RepeatSettles(valid, sorted, cfg, prev, n - 1, id);
      RepeatStep(valid, sorted, cfg, prev, n - 1, id);
    }
  }

  /** Anti-flicker: from any prior state, repeating one input with hysteresis > 0 keeps every player's
      centroid position from the second call on and every cluster ID from the third. */
  lemma AntiFlicker(valid: seq<ClusterPlayer>, sorted: seq<ClusterPlayer>, cfg: ClusterConfig,
                    prev: Option<ClusterOutput>, n: nat)
    requires ValidConfig(cfg) && 0 < |valid| == |sorted| && cfg.membershipHysteresis > 0.0
    requires n >= 2
    ensures var second, third, later :=
      Repeat(valid, sorted, cfg, prev, 1), Repeat(valid, sorted, cfg, prev, 2), Repeat(valid, sorted, cfg, prev, n);
      && later.assignments == third.assignments
      && later.assignments.Keys == second.assignments.Keys == IDs(valid)
      && later.centroids == second.centroids
      && forall id :: id in IDs(valid) ==> SameCentroid(second, later, id)
  {
    hide Repeat, LloydResult, Reconsider;
    var second, third, later :=
      Repeat(valid, sorted, cfg, prev, 1), Repeat(valid, sorted, cfg, prev, 2), Repeat(valid, sorted, cfg, prev, n);
    RepeatStep(valid, sorted, cfg, prev, 1, valid[0].id);
    RepeatStep(valid, sorted, cfg, prev, n - 1, valid[0].id);
    RepeatSettles(valid, sorted, cfg, prev, n, valid[0].id);
    hide IDs;
    forall id | id in IDs(valid)
      ensures later.assignments[id] == third.assignments[id] && SameCentroid(second, later, id)
    {
      hide SameCentroid;
      RepeatSettles(valid, sorted, cfg, prev, n, id);
    }
    assert later.assignments == third.assignments;
  }

  // ----- Repeated calls in random order -------------------------------------------

  /** The output after calls on `inputs`, the last one being inputs[n]. */
  ghost function Calls(inputs: seq<seq<ClusterPlayer>>, sorts: seq<seq<ClusterPlayer>>, cfg: ClusterConfig,
                       prev: Option<ClusterOutput>, n: nat): ClusterOutput
    requires ValidConfig(cfg) && n < |inputs| == |sorts|
    requires forall i :: 0 <= i < |inputs| ==> |inputs[i]| == |sorts[i]|
  {
    Clustering(inputs[n], sorts[n], cfg, if n == 0 then prev else Some(Calls(inputs, sorts, cfg, prev, n - 1)))
  }

  ghost predicate Reorderings(players: seq<ClusterPlayer>, inputs: seq<seq<ClusterPlayer>>,
                              sorts: seq<seq<ClusterPlayer>>)
  {
    && |inputs| == |sorts|
    && (forall i :: 0 <= i < |inputs| ==> multiset(inputs[i]) == multiset(players))
    && (forall i :: 0 <= i < |inputs| ==> IsSortOf(sorts[i], inputs[i]) && |sorts[i]| == |inputs[i]|)
  }

  lemma {:induction false} ReorderedCallsMatch(players: seq<ClusterPlayer>, sorted: seq<ClusterPlayer>,
                                               inputs: seq<seq<ClusterPlayer>>, sorts: seq<seq<ClusterPlayer>>,
                                               cfg: ClusterConfig, prev: Option<ClusterOutput>, n: nat)
    requires ValidConfig(cfg) && DistinctIDs(players) && players != []
    requires IsSortOf(sorted, players) && |sorted| == |players|
    requires Reorderings(players, inputs, sorts) && n < |inputs|
    ensures SameOutput(Calls(inputs, sorts, cfg, prev, n), Repeat(players, sorted, cfg, prev, n))
  {
    hide Clustering;
    DistinctPermuted(players, inputs[n]);
    if n == 0 {
      ClusteringPermuted(inputs[0], sorts[0], players, sorted, cfg, prev);
    } else {
      ReorderedCallsMatch(players, sorted, inputs, sorts, cfg, prev, n - 1);
      var x, y := Calls(inputs, sorts, cfg, prev, n - 1), Repeat(players, sorted, cfg, prev, n - 1);
      PrevUpToOrder(inputs[n], sorts[n], cfg, x, y);
      ClusteringPermuted(inputs[n], sorts[n], players, sorted, cfg, Some(y));
    }
  }

  /** Anti-flicker as the room sees it: each call may list the same players in another order. */
  lemma AntiFlickerAnyOrder(players: seq<ClusterPlayer>, sorted: seq<ClusterPlayer>,
                            inputs: seq<seq<ClusterPlayer>>, sorts: seq<seq<ClusterPlayer>>,
                            cfg: ClusterConfig, prev: Option<ClusterOutput>, n: nat)
    requires ValidConfig(cfg) && DistinctIDs(players) && players != [] && cfg.membershipHysteresis > 0.0
    requires IsSortOf(sorted, players) && |sorted| == |players|
    requires Reorderings(players, inputs, sorts) && 2 <= n < |inputs|
    ensures var second, third, later :=
      Calls(inputs, sorts, cfg, prev, 1), Calls(inputs, sorts, cfg, prev, 2), Calls(inputs, sorts, cfg, prev, n);
      && later.assignments == third.assignments
      && later.centroids == second.centroids
      && forall id :: id in IDs(players) ==> SameCentroid(second, later, id)
  {
    hide Calls, Repeat;
    AntiFlicker(players, sorted, cfg, prev, n);
    ReorderedCallsMatch(players, sorted, inputs, sorts, cfg, prev, 1);
    ReorderedCallsMatch(players, sorted, inputs, sorts, cfg, prev, 2);
    ReorderedCallsMatch(players, sorted, inputs, sorts, cfg, prev, n);
  }
}
