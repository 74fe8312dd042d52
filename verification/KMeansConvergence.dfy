// When does the loop leave every player at its nearest centroid, with every
// centroid at its members' mean? Exactly when it is not caught by a first-round exit
// on coincident seeds whose common position is not the mean of all players.

module KMeansConvergence {
  import opened Geometry
  import opened KMeans

  ghost predicate CentroidsAreMeans(players: seq<ClusterPlayer>, s: Lloyd)
    requires |s.assignment| == |players|
  {
    forall c :: 0 <= c < |s.centroids| && MembersOf(players, s.assignment, c).count > 0
      ==> s.centroids[c] == MembersOf(players, s.assignment, c).Mean()
  }

  ghost predicate EveryoneNearest(players: seq<ClusterPlayer>, s: Lloyd)
    requires |s.assignment| == |players|
  {
    forall i :: 0 <= i < |players| ==> IsNearest(players[i].pos, s.centroids, s.assignment[i])
  }

  ghost predicate Converged(players: seq<ClusterPlayer>, s: Lloyd)
    requires |s.assignment| == |players|
  {
    EveryoneNearest(players, s) && CentroidsAreMeans(players, s)
  }

  lemma RoundGivesMeans(players: seq<ClusterPlayer>, s: Lloyd)
    requires |s.centroids| > 0
    ensures CentroidsAreMeans(players, Round(players, s))
  {
  }

  // A round that changes nothing, starting from means, moves no centroid either.
  lemma StableRoundConverges(players: seq<ClusterPlayer>, s: Lloyd)
    requires AssignmentFor(players, s.assignment, |s.centroids|) && |s.centroids| > 0
    requires CentroidsAreMeans(players, s)
    requires Round(players, s).assignment == s.assignment
    ensures Round(players, s) == s && Converged(players, s)
  {
    assert Recentre(players, s.assignment, s.centroids) == s.centroids;
    forall i | 0 <= i < |players|
      ensures IsNearest(players[i].pos, s.centroids, s.assignment[i])
    {
      NearestIsNearest(players[i].pos, s.centroids);
      assert Assign(players, s.centroids)[i] == Nearest(players[i].pos, s.centroids);
    }
  }

  lemma {:induction false} SettlingFromMeansConverges(players: seq<ClusterPlayer>, s: Lloyd, budget: nat)
    requires AssignmentFor(players, s.assignment, |s.centroids|) && |s.centroids| > 0
    requires CentroidsAreMeans(players, s)
    ensures CentroidsAreMeans(players, Iterate(players, s, budget).final)
    ensures Iterate(players, s, budget).settled ==> Converged(players, Iterate(players, s, budget).final)
    decreases budget
  {
    hide Round;
    if budget > 0 {
      RoundGivesMeans(players, s);
      if Round(players, s).assignment == s.assignment {
        StableRoundConverges(players, s);
      } else {
        SettlingFromMeansConverges(players, Round(players, s), budget - 1);
      }
    }
  }

  // ----- The first round ---------------------------------------------------------

  ghost predicate SeedsCoincide(seeds: seq<Pos>) {
    forall c :: 0 <= c < |seeds| ==> seeds[c] == seeds[0]
  }

  ghost function SeedsOf(valid: seq<ClusterPlayer>, sorted: seq<ClusterPlayer>, cfg: ClusterConfig): (r: seq<Pos>)
    requires ValidConfig(cfg) && 0 < |valid| == |sorted|
    ensures |r| > 0
  {
    Seeds(sorted, ClusterCount(|valid|, cfg.targetClusterSize))
  }

  ghost function MeanOfAll(players: seq<ClusterPlayer>): Pos
    requires players != []
  {
    var zeros := seq(|players|, _ => 0);
    CountOfZeros(players, zeros);
    MembersOf(players, zeros, 0).Mean()
  }

  lemma {:induction false} CountOfZeros(players: seq<ClusterPlayer>, zeros: seq<nat>)
    requires |zeros| == |players| && forall i :: 0 <= i < |zeros| ==> zeros[i] == 0
    ensures MembersOf(players, zeros, 0).count == |players|
    ensures forall c: nat :: c > 0 ==> MembersOf(players, zeros, c) == NO_MEMBERS
  {
    if players != [] {
      CountOfZeros(players[..|players| - 1], zeros[..|players| - 1]);
    }
  }

  // With all centroids in one place every player takes index 0.
  lemma NearestAmongEqual(pos: Pos, cs: seq<Pos>)
    requires |cs| > 0 && SeedsCoincide(cs)
    ensures Nearest(pos, cs) == 0
  {
    NearestIsNearest(pos, cs);
    NearestUnique(pos, cs, 0, Nearest(pos, cs));
  }

  // A seed is the position of some player, who is nearest to it unless a lower seed coincides.
  lemma SeedHasPlayer(valid: seq<ClusterPlayer>, sorted: seq<ClusterPlayer>, cfg: ClusterConfig, c: nat)
    returns (i: nat)
    requires ValidConfig(cfg) && 0 < |valid| == |sorted| && IsSortOf(sorted, valid)
    requires c < |SeedsOf(valid, sorted, cfg)|
    ensures i < |valid| && valid[i].pos == SeedsOf(valid, sorted, cfg)[c]
  {
    assert sorted[c] in multiset(valid);
    i :| 0 <= i < |valid| && valid[i] == sorted[c];
  }

  lemma FirstRoundUnchangedMeansSeedsCoincide(valid: seq<ClusterPlayer>, sorted: seq<ClusterPlayer>, cfg: ClusterConfig)
    requires ValidConfig(cfg) && 0 < |valid| == |sorted| && IsSortOf(sorted, valid)
    ensures var seeds := SeedsOf(valid, sorted, cfg);
      Assign(valid, seeds) == Start(valid, seeds).assignment <==> SeedsCoincide(seeds)
  {
    var seeds := SeedsOf(valid, sorted, cfg);
    var zeros := Start(valid, seeds).assignment;
    if Assign(valid, seeds) == zeros {
      forall c | 0 <= c < |seeds|
        ensures seeds[c] == seeds[0]
      {
        var i := SeedHasPlayer(valid, sorted, cfg, c);
        assert Assign(valid, seeds)[i] == zeros[i] == 0;
        NearestIsNearest(valid[i].pos, seeds);
        assert SqDist(seeds[c], seeds[0]) <= SqDist(seeds[c], seeds[c]);
      }
    }
    if SeedsCoincide(seeds) {
      forall i | 0 <= i < |valid|
        ensures Assign(valid, seeds)[i] == zeros[i]
      {
        NearestAmongEqual(valid[i].pos, seeds);
      }
    }
  }

  /** The loop is caught by its first round exactly when all K seeds are one position. */
  lemma FirstRoundExit(valid: seq<ClusterPlayer>, sorted: seq<ClusterPlayer>, cfg: ClusterConfig)
    requires ValidConfig(cfg) && 0 < |valid| == |sorted| && IsSortOf(sorted, valid)
    ensures var r := LloydResult(valid, sorted, cfg);
      r.settled && r.rounds == 1 <==> SeedsCoincide(SeedsOf(valid, sorted, cfg))
  {
    FirstRoundUnchangedMeansSeedsCoincide(valid, sorted, cfg);
    var s := Start(valid, SeedsOf(valid, sorted, cfg));
    var next := Round(valid, s);
    assert next.assignment == Assign(valid, s.centroids);
    if next.assignment != s.assignment {
      LaterRoundsCount(valid, next, cfg.maxIterations - 1);
    }
  }

  lemma LaterRoundsCount(players: seq<ClusterPlayer>, s: Lloyd, budget: nat)
    requires AssignmentFor(players, s.assignment, |s.centroids|) && |s.centroids| > 0
    ensures Iterate(players, s, budget).settled ==> Iterate(players, s, budget).rounds > 0
  {
    hide Round;
  }

  // What the first-round exit leaves behind: centroid 0 at the overall mean, the rest at the seed.
  lemma FirstRoundState(valid: seq<ClusterPlayer>, seeds: seq<Pos>)
    requires valid != [] && |seeds| > 0 && SeedsCoincide(seeds)
    ensures Round(valid, Start(valid, seeds)) == Lloyd(Start(valid, seeds).assignment, seeds[0 := MeanOfAll(valid)])
  {
    var s := Start(valid, seeds);
    forall i | 0 <= i < |valid|
      ensures Assign(valid, seeds)[i] == s.assignment[i]
    {
      NearestAmongEqual(valid[i].pos, seeds);
    }
    assert Assign(valid, seeds) == s.assignment;
    CountOfZeros(valid, s.assignment);
    assert s.assignment == seq(|valid|, _ => 0);
    assert Recentre(valid, s.assignment, seeds) == seeds[0 := MeanOfAll(valid)];
  }

  lemma FirstRoundExitConverged(valid: seq<ClusterPlayer>, sorted: seq<ClusterPlayer>, cfg: ClusterConfig)
    requires ValidConfig(cfg) && 0 < |valid| == |sorted| && IsSortOf(sorted, valid)
    requires SeedsCoincide(SeedsOf(valid, sorted, cfg))
    ensures var seeds := SeedsOf(valid, sorted, cfg);
      Converged(valid, Round(valid, Start(valid, seeds))) <==> |seeds| == 1 || MeanOfAll(valid) == seeds[0]
  {
    var seeds := SeedsOf(valid, sorted, cfg);
    var next := Round(valid, Start(valid, seeds));
    RoundGivesMeans(valid, Start(valid, seeds));
    FirstRoundState(valid, seeds);
    hide Round, Start;
    if |seeds| == 1 || MeanOfAll(valid) == seeds[0] {
      assert SeedsCoincide(next.centroids);
      forall i | 0 <= i < |valid|
        ensures IsNearest(valid[i].pos, next.centroids, next.assignment[i])
      {
        NearestAmongEqual(valid[i].pos, next.centroids);
        NearestIsNearest(valid[i].pos, next.centroids);
      }
    } else {
      var i := SeedHasPlayer(valid, sorted, cfg, 1);
      assert next.centroids[1] == seeds[0] == valid[i].pos;
      assert SqDist(valid[i].pos, next.centroids[1]) < SqDist(valid[i].pos, next.centroids[0]);
      assert next.assignment[i] == 0;
    }
  }

  /** A loop that stopped by itself is converged, except for a first-round exit with K >= 2
      whose coincident seeds are not at the mean of all players. */
  lemma ConvergedExactly(valid: seq<ClusterPlayer>, sorted: seq<ClusterPlayer>, cfg: ClusterConfig)
    requires ValidConfig(cfg) && 0 < |valid| == |sorted| && IsSortOf(sorted, valid)
    requires LloydResult(valid, sorted, cfg).settled
    ensures var seeds := SeedsOf(valid, sorted, cfg);
      Converged(valid, LloydResult(valid, sorted, cfg).final) <==>
      (!SeedsCoincide(seeds) || |seeds| == 1 || MeanOfAll(valid) == seeds[0])
  {
    var s := Start(valid, SeedsOf(valid, sorted, cfg));
    FirstRoundUnchangedMeansSeedsCoincide(valid, sorted, cfg);
    var next := Round(valid, s);
    assert next.assignment == Assign(valid, s.centroids);
    RoundGivesMeans(valid, s);
    hide Round, Converged, MeanOfAll;
    if SeedsCoincide(s.centroids) {
      FirstRoundExitConverged(valid, sorted, cfg);
    } else {
      SettlingFromMeansConverges(valid, next, cfg.maxIterations - 1);
    }
  }

  /** However the loop ended, every non-empty cluster's centroid is its exact mean. */
  lemma AlwaysAtMeans(valid: seq<ClusterPlayer>, sorted: seq<ClusterPlayer>, cfg: ClusterConfig)
    requires ValidConfig(cfg) && 0 < |valid| == |sorted|
    ensures CentroidsAreMeans(valid, LloydResult(valid, sorted, cfg).final)
  {
    var s := Start(valid, SeedsOf(valid, sorted, cfg));
    RoundGivesMeans(valid, s);
    hide Round, CentroidsAreMeans;
    SettlingFromMeansConverges(valid, Round(valid, s), cfg.maxIterations - 1);
  }

  lemma MeanOfThree(p: ClusterPlayer, q: ClusterPlayer, r: ClusterPlayer)
    ensures MeanOfAll([p, q, r]).x == (p.pos.x + q.pos.x + r.pos.x) / 3.0
  {
    var ps, zeros := [p, q, r], seq(3, _ => 0);
    assert ps[..2] == [p, q] && [p, q][..1] == [p] && [p][..0] == [];
    CountOfZeros(ps, zeros);
    var z1: seq<nat>, z2: seq<nat> := zeros[..1], zeros[..2];
    assert z2[..1] == z1;
    assert MembersOf([p], z1, 0).sumX == p.pos.x;
    assert MembersOf([p, q], z2, 0).sumX == p.pos.x + q.pos.x;
    assert MembersOf(ps, zeros, 0).sumX == p.pos.x + q.pos.x + r.pos.x;
  }

  // Two players at the origin seed both clusters; the third drags centroid 0 away from them.
  lemma FirstRoundExitCanMissConvergence()
    ensures var o, far := Pos(0.0, 0.0), Pos(3.0, 0.0);
      var ps := [ClusterPlayer("a", o), ClusterPlayer("b", o), ClusterPlayer("c", far)];
      var cfg := ClusterConfig(true, 2, 10, 2.0, 5.0, 20, 200);
      LloydResult(ps, ps, cfg).settled && !Converged(ps, LloydResult(ps, ps, cfg).final)
  {
    var o, far := Pos(0.0, 0.0), Pos(3.0, 0.0);
    var ps := [ClusterPlayer("a", o), ClusterPlayer("b", o), ClusterPlayer("c", far)];
    var cfg := ClusterConfig(true, 2, 10, 2.0, 5.0, 20, 200);
    assert SortedByID(ps);
    hide Precedes, MembersOf, MeanOfAll, LloydResult, Converged;
    MeanOfThree(ps[0], ps[1], ps[2]);
    assert |SeedsOf(ps, ps, cfg)| == 2;
    FirstRoundExit(ps, ps, cfg);
    ConvergedExactly(ps, ps, cfg);
  }
}
