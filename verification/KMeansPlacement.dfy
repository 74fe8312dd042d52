// Where a Compute call puts each player, in terms of the loop's result, the previous output and the
// centroids of the output itself.

module KMeansPlacement {
  import opened Common
  import opened Geometry
  import opened KMeans
  import opened KMeansOutput
  import opened KMeansDescent
  import opened KMeansConvergence
  import opened KMeansOrder
  import opened KMeansHysteresis

  // ----- Seeding -----------------------------------------------------------------

  /** Go's order on strings: at the first difference the smaller character decides, and a proper prefix
      comes first. */
  ghost predicate Lexicographic(a: string, b: string) {
    exists n: nat :: FirstDifference(a, b, n)
  }

  ghost predicate FirstDifference(a: string, b: string, n: nat) {
    n <= |a| && n < |b| && a[..n] == b[..n] && (n == |a| || a[n] < b[n])
  }

  lemma {:induction false} PrecedesIsLexicographic(a: string, b: string)
    ensures Precedes(a, b) <==> Lexicographic(a, b)
    decreases |a|
  {
    if a != "" && b != "" && a[0] == b[0] {
      PrecedesIsLexicographic(a[1..], b[1..]);
      if Lexicographic(a[1..], b[1..]) {
        var n: nat :| FirstDifference(a[1..], b[1..], n);
        assert a[..n + 1] == [a[0]] + a[1..][..n] && b[..n + 1] == [b[0]] + b[1..][..n];
        assert FirstDifference(a, b, n + 1);
      }
      if Lexicographic(a, b) {
        var n: nat :| FirstDifference(a, b, n);
        assert n > 0;
        assert a[1..][..n - 1] == a[..n][1..] && b[1..][..n - 1] == b[..n][1..];
        assert FirstDifference(a[1..], b[1..], n - 1);
      }
    } else if b != "" {
      assert a == "" || a[0] < b[0] ==> FirstDifference(a, b, 0);
      if Lexicographic(a, b) {
        var n: nat :| FirstDifference(a, b, n);
        assert n > 0 ==> a[..n][0] == b[..n][0];
      }
    }
  }

  ghost function Before(players: seq<ClusterPlayer>, id: PlayerID): set<PlayerID> {
    set x | x in IDs(players) && Precedes(x, id)
  }

  lemma SameIDs(p: seq<ClusterPlayer>, q: seq<ClusterPlayer>)
    requires multiset(p) == multiset(q)
    ensures IDs(p) <= IDs(q)
  {
    forall i | 0 <= i < |p|
      ensures p[i].id in IDs(q)
    {
      assert p[i] in multiset(p);
      var j := IndexIn(q, p[i]);
      assert q[j].id == p[i].id;
    }
  }

  lemma BeforeInSorted(sorted: seq<ClusterPlayer>, i: nat)
    requires SortedByID(sorted) && DistinctIDs(sorted) && i < |sorted|
    ensures Before(sorted, sorted[i].id) == IDs(sorted[..i])
  {
    forall j | 0 <= j < |sorted|
      ensures Precedes(sorted[j].id, sorted[i].id) <==> j < i
    {
      PrecedesTotal(sorted[j].id, sorted[i].id);
    }
    hide Precedes;
    forall x | x in Before(sorted, sorted[i].id)
      ensures x in IDs(sorted[..i])
    {
      var j :| 0 <= j < |sorted| && sorted[j].id == x;
      assert sorted[..i][j].id == x;
    }
    forall x | x in IDs(sorted[..i])
      ensures x in Before(sorted, sorted[i].id)
    {
      var j :| 0 <= j < i && sorted[..i][j].id == x;
      assert sorted[j].id == x;
    }
  }

  /** The i-th seed is the position of the valid player whose ID has exactly i smaller ones, whatever order
      the players came in. */
  lemma SeedsAreLowestIDs(valid: seq<ClusterPlayer>, sorted: seq<ClusterPlayer>, k: nat, i: nat)
    returns (p: ClusterPlayer)
    requires IsSortOf(sorted, valid) && DistinctIDs(valid) && i < k <= |sorted|
    ensures p in valid && Seeds(sorted, k)[i] == p.pos && |Before(valid, p.id)| == i
  {
    p := sorted[i];
    assert p in multiset(sorted);
    DistinctPermuted(valid, sorted);
    SameIDs(valid, sorted);
    SameIDs(sorted, valid);
    assert Before(valid, p.id) == Before(sorted, p.id);
    BeforeInSorted(sorted, i);
    IDCount(sorted[..i]);
  }

  // ----- The cap on rounds -------------------------------------------------------

  lemma {:induction false} UnsettledUsesBudget(players: seq<ClusterPlayer>, s: Lloyd, budget: nat)
    requires AssignmentFor(players, s.assignment, |s.centroids|) && |s.centroids| > 0
    ensures Iterate(players, s, budget).settled || Iterate(players, s, budget).rounds == budget
    decreases budget
  {
    hide Round;
    if budget > 0 && Round(players, s).assignment != s.assignment {
      UnsettledUsesBudget(players, Round(players, s), budget - 1);
    }
  }

  /** A Compute call ends its loop either because nothing changed or after exactly MaxIterations rounds, and
      always the former if MaxIterations exceeds K^n. */
  lemma LoopEnds(valid: seq<ClusterPlayer>, sorted: seq<ClusterPlayer>, cfg: ClusterConfig)
    requires ValidConfig(cfg) && 0 < |valid| == |sorted|
    ensures var r := LloydResult(valid, sorted, cfg);
      && (r.settled || r.rounds == cfg.maxIterations)
      && (cfg.maxIterations > Pow(|r.final.centroids|, |valid|) ==> r.settled)
  {
    hide Iterate, Pow;
    var s := Start(valid, Seeds(sorted, ClusterCount(|valid|, cfg.targetClusterSize)));
    UnsettledUsesBudget(valid, s, cfg.maxIterations);
    if cfg.maxIterations > Pow(|s.centroids|, |valid|) {
      SettlesWithoutCap(valid, s, cfg.maxIterations);
    }
  }

  /** A cluster that attracts nobody in the first n rounds still has its seed for centroid. */
  lemma {:induction false} LonelySeedStays(players: seq<ClusterPlayer>, s: Lloyd, n: nat, c: nat)
    requires AssignmentFor(players, s.assignment, |s.centroids|) && c < |s.centroids|
    requires forall m, i :: 1 <= m <= n && 0 <= i < |players| ==> After(players, s, m).assignment[i] != c
    ensures After(players, s, n).centroids[c] == s.centroids[c]
  {
    if n > 0 {
      LonelySeedStays(players, s, n - 1, c);
      NobodyCounted(players, After(players, s, n).assignment, c);
    }
  }

  lemma {:induction false} NobodyCounted(players: seq<ClusterPlayer>, a: seq<nat>, c: nat)
    requires |a| == |players| && forall i :: 0 <= i < |a| ==> a[i] != c
    ensures MembersOf(players, a, c).count == 0
  {
    if players != [] {
      NobodyCounted(players[..|players| - 1], a[..|a| - 1], c);
    }
  }

  // ----- Where players end up ----------------------------------------------------

  /** Hysteresis has nothing to compare this player with. */
  ghost predicate Unknown(prev: Option<ClusterOutput>, margin: real, id: PlayerID) {
    prev.None? || margin <= 0.0 || id !in prev.value.assignments
  }

  // The output's entry for a player, and its centroids.
  lemma OutputEntry(valid: seq<ClusterPlayer>, sorted: seq<ClusterPlayer>, cfg: ClusterConfig,
                    prev: Option<ClusterOutput>, i: nat)
    requires ValidConfig(cfg) && i < |valid| == |sorted| && DistinctIDs(valid)
    ensures var out, s := Clustering(valid, sorted, cfg, prev), LloydResult(valid, sorted, cfg).final;
      && valid[i].id in out.assignments
      && out.assignments[valid[i].id] == Hysteresis(valid, s, prev, cfg.membershipHysteresis)[i]
      && out.k == |s.centroids| && (forall c :: c in out.centroids <==> 0 <= c < out.k)
      && (forall c :: 0 <= c < out.k ==> out.centroids[c] == s.centroids[c])
  {
    hide LloydResult, Hysteresis;
    var s := LloydResult(valid, sorted, cfg).final;
    DistinctLookup(valid, Hysteresis(valid, s, prev, cfg.membershipHysteresis), i);
  }

  /** The names of the members of a cluster, in the order of the players. */
  ghost function NamesOf(players: seq<ClusterPlayer>, a: seq<nat>, c: nat): seq<PlayerID>
    requires |a| == |players|
  {
    if players == [] then []
    else (if a[0] == c then [players[0].id] else []) + NamesOf(players[1..], a[1..], c)
  }

  lemma {:induction false} NamesOneMore(players: seq<ClusterPlayer>, a: seq<nat>, c: nat)
    requires |a| == |players| > 0
    ensures var last := |players| - 1;
      NamesOf(players, a, c) == NamesOf(players[..last], a[..last], c) + if a[last] == c then [players[last].id] else []
  {
    var last := |players| - 1;
    if last > 0 {
      NamesOneMore(players[1..], a[1..], c);
      assert players[1..][..last - 1] == players[..last][1..] && a[1..][..last - 1] == a[..last][1..];
    }
  }

  /** Every cluster lists its members in the order in which the players came. */
  lemma {:induction false} ListsKeepOrder(players: seq<ClusterPlayer>, a: seq<nat>, c: nat)
    requires |a| == |players|
    ensures MembersIn(ClusterMap(players, a), c) == NamesOf(players, a, c)
  {
    if players != [] {
      ListsKeepOrder(players[..|players| - 1], a[..|a| - 1], c);
      NamesOneMore(players, a, c);
      hide NamesOf;
    }
  }

  /** A player the allocator has no record of, and everyone when there is no previous output or no
      hysteresis, is put where the loop put it. */
  lemma NewcomerPlacement(valid: seq<ClusterPlayer>, sorted: seq<ClusterPlayer>, cfg: ClusterConfig,
                          prev: Option<ClusterOutput>, i: nat)
    requires ValidConfig(cfg) && i < |valid| == |sorted| && DistinctIDs(valid)
    requires Unknown(prev, cfg.membershipHysteresis, valid[i].id)
    ensures var out := Clustering(valid, sorted, cfg, prev);
      && valid[i].id in out.assignments
      && out.assignments[valid[i].id] == LloydResult(valid, sorted, cfg).final.assignment[i]
  {
    hide LloydResult, Clustering;
    OutputEntry(valid, sorted, cfg, prev, i);
  }

  /** `mine` is the lowest-numbered of the output's centroids nearest to the position. */
  ghost predicate NearestIn(out: ClusterOutput, pos: Pos, mine: nat)
    requires forall c :: c in out.centroids <==> 0 <= c < out.k
  {
    && mine < out.k
    && (forall c :: 0 <= c < mine ==> SqDist(pos, out.centroids[mine]) < SqDist(pos, out.centroids[c]))
    && (forall c :: 0 <= c < out.k ==> SqDist(pos, out.centroids[mine]) <= SqDist(pos, out.centroids[c]))
  }

  /** If the loop stopped by itself, other than on coincident seeds away from the mean, such a player is in
      the cluster whose centroid, among those of the output, is nearest to it. */
  lemma NewcomerNearest(valid: seq<ClusterPlayer>, sorted: seq<ClusterPlayer>, cfg: ClusterConfig,
                        prev: Option<ClusterOutput>, i: nat)
    requires ValidConfig(cfg) && i < |valid| == |sorted| && DistinctIDs(valid) && IsSortOf(sorted, valid)
    requires Unknown(prev, cfg.membershipHysteresis, valid[i].id)
    requires LloydResult(valid, sorted, cfg).settled
    requires var seeds := SeedsOf(valid, sorted, cfg);
      !SeedsCoincide(seeds) || |seeds| == 1 || MeanOfAll(valid) == seeds[0]
    ensures var out := Clustering(valid, sorted, cfg, prev);
      && valid[i].id in out.assignments && (forall c :: c in out.centroids <==> 0 <= c < out.k)
      && NearestIn(out, valid[i].pos, out.assignments[valid[i].id])
  {
    ConvergedExactly(valid, sorted, cfg);
    hide LloydResult, Clustering, SqDist, MeanOfAll, SeedsOf, SeedsCoincide, CentroidsAreMeans;
    OutputEntry(valid, sorted, cfg, prev, i);
    NewcomerPlacement(valid, sorted, cfg, prev, i);
    assert IsNearest(valid[i].pos, LloydResult(valid, sorted, cfg).final.centroids,
                     LloydResult(valid, sorted, cfg).final.assignment[i]);
  }

  /** A player the allocator knows moves to the loop's choice only if that is closer than its previous
      centroid by more than the margin; otherwise it goes to the output's centroid nearest to that one. */
  lemma KnownPlacement(valid: seq<ClusterPlayer>, sorted: seq<ClusterPlayer>, cfg: ClusterConfig,
                       prev: ClusterOutput, i: nat, distNew: real, distOld: real)
    requires ValidConfig(cfg) && i < |valid| == |sorted| && DistinctIDs(valid)
    requires cfg.membershipHysteresis > 0.0 && distNew >= 0.0 && distOld >= 0.0
    requires valid[i].id in prev.assignments && prev.assignments[valid[i].id] in prev.centroids
    requires var s := LloydResult(valid, sorted, cfg).final;
      Square(distNew) == SqDist(valid[i].pos, s.centroids[s.assignment[i]])
    requires Square(distOld) == SqDist(valid[i].pos, prev.centroids[prev.assignments[valid[i].id]])
    ensures var out := Clustering(valid, sorted, cfg, Some(prev));
      && valid[i].id in out.assignments && (forall c :: c in out.centroids <==> 0 <= c < out.k)
      && (distNew < distOld - cfg.membershipHysteresis ==>
            out.assignments[valid[i].id] == LloydResult(valid, sorted, cfg).final.assignment[i])
      && (distNew >= distOld - cfg.membershipHysteresis ==>
            NearestIn(out, prev.centroids[prev.assignments[valid[i].id]], out.assignments[valid[i].id]))
  {
    hide LloydResult, Clustering, SqDist, Square, Stabilise;
    var s := LloydResult(valid, sorted, cfg).final;
    OutputEntry(valid, sorted, cfg, Some(prev), i);
    ReassignmentRule(valid[i], s.assignment[i], s.centroids, prev, cfg.membershipHysteresis, distNew, distOld);
  }
}
