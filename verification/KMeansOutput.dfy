// What every Compute call returns: a partition of the valid players, and a record
// in which every assigned cluster has a centroid.

module KMeansOutput {
  import opened Common
  import opened Geometry
  import opened KMeans

  /** Every assigned cluster is in [0, K) and has a centroid. */
  ghost predicate InRange(out: ClusterOutput) {
    && (forall id :: id in out.assignments ==> out.assignments[id] < out.k)
    && (forall c :: c in out.centroids <==> 0 <= c < out.k)
  }

  /** Clusters is the exact inverse of Assignments. */
  ghost predicate Inverse(out: ClusterOutput) {
    && (forall c :: c in out.clusters ==> out.clusters[c] != [] && NoDuplicates(out.clusters[c]))
    && (forall c, id {:trigger id in out.clusters[c]} ::
          c in out.clusters && id in out.clusters[c] ==> id in out.assignments && out.assignments[id] == c)
    && (forall id :: id in out.assignments
          ==> out.assignments[id] in out.clusters && id in out.clusters[out.assignments[id]])
  }

  /** Members of clusters are assigned players. */
  ghost predicate NamesAssigned(out: ClusterOutput) {
    forall c, id {:trigger id in out.clusters[c]} ::
      c in out.clusters && id in out.clusters[c] ==> id in out.assignments
  }

  ghost function IDs(players: seq<ClusterPlayer>): set<PlayerID> {
    set i | 0 <= i < |players| :: players[i].id
  }

  lemma {:induction false} IDCount(players: seq<ClusterPlayer>)
    requires DistinctIDs(players)
    ensures |IDs(players)| == |players|
  {
    if players != [] {
      var last := |players| - 1;
      var front := players[..last];
      IDCount(front);
      assert IDs(players) == IDs(front) + {players[last].id} by {
        forall i | 0 <= i < last ensures players[i].id in IDs(front) { assert front[i].id == players[i].id; }
        forall i | 0 <= i < last ensures front[i].id in IDs(players) { assert front[i].id == players[i].id; }
      }
      assert players[last].id !in IDs(front);
    } else {
      assert IDs(players) == {};
    }
  }

  // ----- The assignment map ------------------------------------------------------

  /** The index whose assignment the map keeps for a repeated ID. */
  ghost function LastOf(players: seq<ClusterPlayer>, id: PlayerID): (i: nat)
    requires id in IDs(players)
    ensures i < |players| && players[i].id == id
    ensures forall j :: i < j < |players| ==> players[j].id != id
  {
    var last := |players| - 1;
    if players[last].id == id then last
    else
      assert id in IDs(players[..last]) by {
        var i :| 0 <= i < |players| && players[i].id == id;
        assert players[..last][i].id == id;
      }
      LastOf(players[..last], id)
  }

  lemma {:induction false} AssignmentMapLookup(players: seq<ClusterPlayer>, a: seq<nat>)
    requires |a| == |players|
    ensures AssignmentMap(players, a).Keys == IDs(players)
    ensures forall id :: id in IDs(players) ==> AssignmentMap(players, a)[id] == a[LastOf(players, id)]
  {
    if players != [] {
      var last := |players| - 1;
      var front := players[..last];
      AssignmentMapLookup(front, a[..last]);
      assert IDs(players) == IDs(front) + {players[last].id} by {
        forall i | 0 <= i < last ensures players[i].id in IDs(front) { assert front[i].id == players[i].id; }
        forall i | 0 <= i < last ensures front[i].id in IDs(players) { assert front[i].id == players[i].id; }
      }
      forall id | id in IDs(players)
        ensures AssignmentMap(players, a)[id] == a[LastOf(players, id)]
      {
        if id != players[last].id {
          assert id in IDs(front);
          assert a[..last][LastOf(front, id)] == a[LastOf(front, id)];
        }
      }
    }
  }

  lemma DistinctLookup(players: seq<ClusterPlayer>, a: seq<nat>, i: nat)
    requires |a| == |players| && DistinctIDs(players) && i < |players|
    ensures players[i].id in AssignmentMap(players, a) && AssignmentMap(players, a)[players[i].id] == a[i]
  {
    AssignmentMapLookup(players, a);
    assert players[i].id in IDs(players);
    var l := LastOf(players, players[i].id);
    assert l == i;
  }

  // ----- The cluster lists -------------------------------------------------------

  ghost predicate ListsMember(players: seq<ClusterPlayer>, a: seq<nat>, c: nat, id: PlayerID)
    requires |a| == |players|
  {
    exists i :: 0 <= i < |players| && players[i].id == id && a[i] == c
  }

  lemma {:induction false} ClusterMapMembers(players: seq<ClusterPlayer>, a: seq<nat>, c: nat, id: PlayerID)
    requires |a| == |players|
    ensures c in ClusterMap(players, a) ==> ClusterMap(players, a)[c] != []
    ensures c in ClusterMap(players, a) && id in ClusterMap(players, a)[c] <==> ListsMember(players, a, c, id)
  {
    if players != [] {
      var last := |players| - 1;
      var front := players[..last];
      ClusterMapMembers(front, a[..last], c, id);
      if ListsMember(front, a[..last], c, id) {
        var i :| 0 <= i < last && front[i].id == id && a[..last][i] == c;
        assert players[i].id == id && a[i] == c;
      }
      if ListsMember(players, a, c, id) {
        var i :| 0 <= i < |players| && players[i].id == id && a[i] == c;
        if i < last {
          assert front[i].id == id && a[..last][i] == c;
        }
      }
    }
  }

  lemma {:induction false} ClusterMapNoDuplicates(players: seq<ClusterPlayer>, a: seq<nat>, c: nat)
    requires |a| == |players| && DistinctIDs(players)
    ensures c in ClusterMap(players, a) ==> NoDuplicates(ClusterMap(players, a)[c])
  {
    if players != [] {
      var last := |players| - 1;
      var front := players[..last];
      ClusterMapNoDuplicates(front, a[..last], c);
      ClusterMapMembers(front, a[..last], c, players[last].id);
      assert !ListsMember(front, a[..last], c, players[last].id);
    }
  }

  lemma OutputInRange(players: seq<ClusterPlayer>, a: seq<nat>, cs: seq<Pos>)
    requires AssignmentFor(players, a, |cs|)
    ensures InRange(BuildOutput(players, a, cs))
    ensures NamesAssigned(BuildOutput(players, a, cs))
  {
    AssignmentMapLookup(players, a);
    var out := BuildOutput(players, a, cs);
    forall c, id | c in out.clusters && id in out.clusters[c]
      ensures id in out.assignments
    {
      ClusterMapMembers(players, a, c, id);
    }
  }

  lemma OutputInverse(players: seq<ClusterPlayer>, a: seq<nat>, cs: seq<Pos>)
    requires |a| == |players| && DistinctIDs(players)
    ensures Inverse(BuildOutput(players, a, cs))
  {
    var out := BuildOutput(players, a, cs);
    AssignmentMapLookup(players, a);
    forall c | c in out.clusters
      ensures out.clusters[c] != [] && NoDuplicates(out.clusters[c])
    {
      ClusterMapMembers(players, a, c, "");
      ClusterMapNoDuplicates(players, a, c);
    }
    forall c, id | c in out.clusters && id in out.clusters[c]
      ensures id in out.assignments && out.assignments[id] == c
    {
      ClusterMapMembers(players, a, c, id);
      var i :| 0 <= i < |players| && players[i].id == id && a[i] == c;
      DistinctLookup(players, a, i);
    }
    forall id | id in out.assignments
      ensures out.assignments[id] in out.clusters && id in out.clusters[out.assignments[id]]
    {
      var i := LastOf(players, id);
      assert ListsMember(players, a, a[i], id);
      ClusterMapMembers(players, a, a[i], id);
    }
  }

  // ----- Compute -----------------------------------------------------------------

  /** The record retained for the next call always has the centroid of every assignment,
      whatever the players' IDs. */
  lemma ClusteringInRange(valid: seq<ClusterPlayer>, sorted: seq<ClusterPlayer>, cfg: ClusterConfig,
                          prev: Option<ClusterOutput>)
    requires ValidConfig(cfg) && |valid| == |sorted|
    ensures InRange(Clustering(valid, sorted, cfg, prev)) && NamesAssigned(Clustering(valid, sorted, cfg, prev))
    ensures Clustering(valid, sorted, cfg, prev).assignments.Keys == IDs(valid)
  {
    if valid != [] {
      hide LloydResult, Hysteresis;
      var s := LloydResult(valid, sorted, cfg).final;
      var a := Hysteresis(valid, s, prev, cfg.membershipHysteresis);
      OutputInRange(valid, a, s.centroids);
      AssignmentMapLookup(valid, a);
    }
  }

  /** Every call on distinct IDs partitions the valid players into K = ceil(n / target) clusters. */
  lemma ClusteringPartitions(valid: seq<ClusterPlayer>, sorted: seq<ClusterPlayer>, cfg: ClusterConfig,
                             prev: Option<ClusterOutput>)
    requires ValidConfig(cfg) && |valid| == |sorted| && DistinctIDs(valid)
    ensures var out := Clustering(valid, sorted, cfg, prev);
      && InRange(out) && Inverse(out) && out.assignments.Keys == IDs(valid)
      && (valid == [] ==> out.k == 0)
      && (valid != [] ==> (out.k - 1) * cfg.targetClusterSize < |valid| <= out.k * cfg.targetClusterSize)
  {
    ClusteringInRange(valid, sorted, cfg, prev);
    if valid != [] {
      hide LloydResult, Hysteresis;
      var s := LloydResult(valid, sorted, cfg).final;
      OutputInverse(valid, Hysteresis(valid, s, prev, cfg.membershipHysteresis), s.centroids);
    }
  }
}
