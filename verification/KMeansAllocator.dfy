// The allocator as it runs: slices updated in place, previous output retained.

module KMeansAllocator {
  import opened Common
  import opened Geometry
  import opened KMeans
  import opened KMeansOutput

  datatype ConfigError = TargetClusterSizeZero | MaxIterationsZero | MaxPlayersZero

  datatype ComputeResult = Ok(output: ClusterOutput) | Err(error: ConfigError)

  function ConfigProblem(cfg: ClusterConfig): (e: Option<ConfigError>)
    ensures e == None <==> ValidConfig(cfg)
    ensures e == Some(TargetClusterSizeZero) <==> cfg.targetClusterSize <= 0
    ensures e == Some(MaxIterationsZero) <==> cfg.targetClusterSize > 0 && cfg.maxIterations <= 0
    ensures e == Some(MaxPlayersZero) <==>
      cfg.targetClusterSize > 0 && cfg.maxIterations > 0 && cfg.maxPlayersPerRoom <= 0
  {
    if cfg.targetClusterSize <= 0 then Some(TargetClusterSizeZero)
    else if cfg.maxIterations <= 0 then Some(MaxIterationsZero)
    else if cfg.maxPlayersPerRoom <= 0 then Some(MaxPlayersZero)
    else None
  }

  method FilterValidPlayers(players: seq<ClusterPlayer>, limit: int) returns (out: seq<ClusterPlayer>)
    requires limit > 0
    ensures out == ValidPlayers(players, limit)
  {
    out := [];
    for n := 0 to |players|
      invariant out == NonEmptyIDs(players[..n]) && |out| < limit
    {
      assert players[..n + 1][..n] == players[..n];
      if players[n].id != "" {
        out := out + [players[n]];
        if |out| >= limit {
          PrefixFilter(players, n + 1);
          return;
        }
      }
    }
    assert players[..|players|] == players;
  }

  lemma {:induction false} PrefixFilter(players: seq<ClusterPlayer>, n: nat)
    requires n <= |players|
    ensures NonEmptyIDs(players[..n]) <= NonEmptyIDs(players)
  {
    if n < |players| {
      var front := players[..|players| - 1];
      PrefixFilter(front, n);
      assert front[..n] == players[..n];
    } else {
      assert players[..n] == players;
    }
  }

  method InitCentroids(players: seq<ClusterPlayer>, k: nat)
    returns (centroids: array<Pos>, ghost sorted: seq<ClusterPlayer>)
    requires k <= |players|
    ensures fresh(centroids) && IsSortOf(sorted, players) && |sorted| == |players|
    ensures centroids[..] == Seeds(sorted, k)
  {
    var byID := SortByID(players);
    sorted := byID;
    centroids := new Pos[k](i requires 0 <= i < k => byID[i].pos);
  }

  method NearestCentroidIndex(pos: Pos, centroids: seq<Pos>) returns (best: nat)
    requires |centroids| > 0
    ensures IsNearest(pos, centroids, best)
    ensures best == Nearest(pos, centroids)
  {
    best := 0;
    var bestDist := SqDist(pos, centroids[0]);
    for i := 1 to |centroids|
      invariant best < i && IsNearest(pos, centroids[..i], best)
      invariant bestDist == SqDist(pos, centroids[best])
    {
      var d := SqDist(pos, centroids[i]);
      assert forall j :: 0 <= j < i ==> centroids[..i][j] == centroids[..i + 1][j] == centroids[j];
      if d < bestDist {
        bestDist := d;
        best := i;
      }
    }
    assert centroids[..|centroids|] == centroids;
    NearestIsNearest(pos, centroids);
    NearestUnique(pos, centroids, best, Nearest(pos, centroids));
  }

  method AssignNearest(players: seq<ClusterPlayer>, centroids: array<Pos>, assignments: array<nat>)
    returns (changed: bool)
    requires centroids.Length > 0 && assignments.Length == |players|
    modifies assignments
    ensures assignments[..] == Assign(players, centroids[..])
    ensures changed <==> assignments[..] != old(assignments[..])
  {
    hide Nearest;
    changed := false;
    for i := 0 to |players|
      invariant forall j :: 0 <= j < i ==> assignments[j] == Nearest(players[j].pos, centroids[..])
      invariant forall j :: i <= j < |players| ==> assignments[j] == old(assignments[j])
      invariant changed <==> exists j :: 0 <= j < i && assignments[j] != old(assignments[j])
    {
      var nearest := NearestCentroidIndex(players[i].pos, centroids[..]);
      if assignments[i] != nearest {
        assignments[i] := nearest;
        changed := true;
      }
    }
    if changed {
      ghost var j :| 0 <= j < |players| && assignments[j] != old(assignments[j]);
      assert assignments[..][j] != old(assignments[..])[j];
    }
  }

  /** Counts the members of every cluster and sums their coordinates. */
  method TallyMembers(players: seq<ClusterPlayer>, assignments: array<nat>, k: nat)
    returns (sumX: array<real>, sumZ: array<real>, count: array<nat>)
    requires AssignmentFor(players, assignments[..], k)
    ensures fresh(sumX) && fresh(sumZ) && fresh(count) && sumX.Length == sumZ.Length == count.Length == k
    ensures forall c :: 0 <= c < k ==>
      Tally(count[c], sumX[c], sumZ[c]) == MembersOf(players, assignments[..], c)
  {
    hide MembersOf;
    sumX := new real[k](_ => 0.0);
    sumZ := new real[k](_ => 0.0);
    count := new nat[k](_ => 0);
    ghost var a := assignments[..];
    NoMembersYet(players, a);
    for i := 0 to |players|
      invariant assignments[..] == a
      invariant forall c :: 0 <= c < k ==> Tally(count[c], sumX[c], sumZ[c]) == MembersOf(players[..i], a[..i], c)
    {
      OneMoreMember(players, a, i);
      assert assignments[i] == a[i] < k;
      AddMember(sumX, sumZ, count, assignments[i], players[i].pos);
    }
    assert players[..|players|] == players && a[..|players|] == a;
  }

  method AddMember(sumX: array<real>, sumZ: array<real>, count: array<nat>, c: nat, p: Pos)
    requires c < sumX.Length == sumZ.Length == count.Length && sumX != sumZ
    modifies sumX, sumZ, count
    ensures forall d :: 0 <= d < count.Length ==>
      Tally(count[d], sumX[d], sumZ[d])
      == (var t := old(Tally(count[d], sumX[d], sumZ[d])); if d == c then t.Add(p) else t)
  {
    sumX[c] := sumX[c] + p.x;
    sumZ[c] := sumZ[c] + p.z;
    count[c] := count[c] + 1;
  }

  lemma NoMembersYet(players: seq<ClusterPlayer>, a: seq<nat>)
    requires |a| == |players|
    ensures forall c :: MembersOf(players[..0], a[..0], c) == NO_MEMBERS
  {
  }

  lemma OneMoreMember(players: seq<ClusterPlayer>, a: seq<nat>, i: nat)
    requires i < |a| == |players|
    ensures forall c ::
      MembersOf(players[..i + 1], a[..i + 1], c)
      == (var t := MembersOf(players[..i], a[..i], c); if a[i] == c then t.Add(players[i].pos) else t)
  {
    assert players[..i + 1][..i] == players[..i] && a[..i + 1][..i] == a[..i];
  }

  method RecomputeCentroids(players: seq<ClusterPlayer>, assignments: array<nat>, centroids: array<Pos>)
    requires AssignmentFor(players, assignments[..], centroids.Length)
    modifies centroids
    ensures centroids[..] == Recentre(players, assignments[..], old(centroids[..]))
  {
    hide MembersOf;
    ghost var a := assignments[..];
    var sumX, sumZ, count := TallyMembers(players, assignments, centroids.Length);
    for c := 0 to centroids.Length
      invariant assignments[..] == a
      invariant forall d :: 0 <= d < c ==> centroids[d] == MeanOr(MembersOf(players, a, d), old(centroids[d]))
      invariant forall d :: c <= d < centroids.Length ==> centroids[d] == old(centroids[d])
      invariant forall d :: 0 <= d < centroids.Length ==>
        Tally(count[d], sumX[d], sumZ[d]) == MembersOf(players, a, d)
    {
      if count[c] > 0 {
        centroids[c] := Pos(sumX[c] / count[c] as real, sumZ[c] / count[c] as real);
      }
    }
  }

  method ApplyHysteresis(players: seq<ClusterPlayer>, assignments: array<nat>, centroids: seq<Pos>,
                         prev: ClusterOutput, margin: real)
    requires AssignmentFor(players, assignments[..], |centroids|) && margin > 0.0
    modifies assignments
    ensures assignments[..] == Hysteresis(players, Lloyd(old(assignments[..]), centroids), Some(prev), margin)
  {
    ghost var a := assignments[..];
    for i := 0 to |players|
      invariant forall j :: 0 <= j < i ==> assignments[j] == Stabilise(players[j], a[j], centroids, prev, margin)
      invariant forall j :: i <= j < |players| ==> assignments[j] == a[j]
    {
      var p := players[i];
      assert a[i] < |centroids|;
      if p.id in prev.assignments && prev.assignments[p.id] in prev.centroids {
        var before := prev.centroids[prev.assignments[p.id]];
        var distNewSq := SqDist(p.pos, centroids[assignments[i]]);
        var distOldSq := SqDist(p.pos, before);
        if StaysWithin(distNewSq, distOldSq, margin) {
          assignments[i] := NearestCentroidIndex(before, centroids);
        }
      }
    }
  }

  method MakeOutput(players: seq<ClusterPlayer>, assignments: seq<nat>, centroids: seq<Pos>)
    returns (out: ClusterOutput)
    requires |assignments| == |players|
    ensures out == BuildOutput(players, assignments, centroids)
  {
    var byCluster: map<nat, Pos> := map[];
    for c := 0 to |centroids|
      invariant byCluster == map d: nat | 0 <= d < c :: centroids[d]
    {
      byCluster := byCluster[c := centroids[c]];
    }
    var byPlayer: map<PlayerID, nat> := map[];
    var clusters: map<nat, seq<PlayerID>> := map[];
    for i := 0 to |players|
      invariant byPlayer == AssignmentMap(players[..i], assignments[..i])
      invariant clusters == ClusterMap(players[..i], assignments[..i])
    {
      assert players[..i + 1][..i] == players[..i] && assignments[..i + 1][..i] == assignments[..i];
      var cid := assignments[i];
      byPlayer := byPlayer[players[i].id := cid];
      clusters := clusters[cid := MembersIn(clusters, cid) + [players[i].id]];
    }
    assert players[..|players|] == players && assignments[..|players|] == assignments;
    out := ClusterOutput(byPlayer, clusters, byCluster, |centroids|);
  }

  /** Assign and recentre until nothing changes or the budget is spent. */
  method RunLloyd(valid: seq<ClusterPlayer>, centroids: array<Pos>, assignments: array<nat>, maxIterations: int)
    requires centroids.Length > 0 && maxIterations > 0
    requires AssignmentFor(valid, assignments[..], centroids.Length)
    modifies centroids, assignments
    ensures Lloyd(assignments[..], centroids[..])
         == Iterate(valid, Lloyd(old(assignments[..]), old(centroids[..])), maxIterations).final
  {
    hide Assign, Recentre;
    ghost var goal := Iterate(valid, Lloyd(assignments[..], centroids[..]), maxIterations).final;
    for iter := 0 to maxIterations
      invariant AssignmentFor(valid, assignments[..], centroids.Length)
      invariant goal == Iterate(valid, Lloyd(assignments[..], centroids[..]), maxIterations - iter).final
    {
      ghost var s := Lloyd(assignments[..], centroids[..]);
      var changed := AssignNearest(valid, centroids, assignments);
      RecomputeCentroids(valid, assignments, centroids);
      assert Lloyd(assignments[..], centroids[..]) == Round(valid, s);
      if !changed {
        break;
      }
    }
  }

  class KMeansClusterAllocator {
    var prevOutput: Option<ClusterOutput>

    /** The retained output always has a centroid for every assigned player, so the
        hysteresis pass never meets a missing previous centroid. */
    ghost predicate Valid()
      reads this
    {
      prevOutput.Some? ==> InRange(prevOutput.value) && NamesAssigned(prevOutput.value)
    }

    constructor ()
      ensures Valid() && prevOutput == None
    {
      prevOutput := None;
    }

    method Reset()
      modifies this
      ensures Valid() && prevOutput == None
    {
      prevOutput := None;
    }

    method Compute(players: seq<ClusterPlayer>, cfg: ClusterConfig)
      returns (r: ComputeResult, ghost sorted: seq<ClusterPlayer>)
      requires Valid()
      modifies this
      ensures Valid()
      ensures r.Err? <==> !ValidConfig(cfg)
      ensures r.Err? ==> prevOutput == old(prevOutput) && Some(r.error) == ConfigProblem(cfg)
      ensures r.Ok? ==>
        var valid := ValidPlayers(players, cfg.maxPlayersPerRoom);
        && IsSortOf(sorted, valid) && |sorted| == |valid|
        && r.output == Clustering(valid, sorted, cfg, old(prevOutput)) && prevOutput == Some(r.output)
    {
      sorted := [];
      var problem := ConfigProblem(cfg);
      if problem.Some? {
        return Err(problem.value), sorted;
      }
      var valid := FilterValidPlayers(players, cfg.maxPlayersPerRoom);
      var n := |valid|;
      if n == 0 {
        prevOutput := Some(EMPTY_OUTPUT);
        return Ok(EMPTY_OUTPUT), sorted;
      }
      var k := ClusterCount(n, cfg.targetClusterSize);
      var centroids;
      centroids, sorted := InitCentroids(valid, k);
      var assignments := new nat[n](_ => 0);
      assert Start(valid, Seeds(sorted, k)) == Lloyd(assignments[..], centroids[..]);
      RunLloyd(valid, centroids, assignments, cfg.maxIterations);
      ghost var s := LloydResult(valid, sorted, cfg).final;
      assert s == Lloyd(assignments[..], centroids[..]);
      if prevOutput.Some? && cfg.membershipHysteresis > 0.0 {
        ApplyHysteresis(valid, assignments, centroids[..], prevOutput.value, cfg.membershipHysteresis);
      }
      assert assignments[..] == Hysteresis(valid, s, prevOutput, cfg.membershipHysteresis);
      var out := MakeOutput(valid, assignments[..], centroids[..]);
      ClusteringInRange(valid, sorted, cfg, prevOutput);
      prevOutput := Some(out);
      r := Ok(out);
    }
  }
}
