// The room feeds the allocator from a randomly ordered map. For distinct IDs and an
// untruncated input, the result does not depend on that order.

module KMeansOrder {
  import opened Common
  import opened Geometry
  import opened KMeans
  import opened KMeansOutput

  // ----- Permutations ------------------------------------------------------------

  ghost function Without<T>(s: seq<T>, j: nat): (r: seq<T>)
    requires j < |s|
    ensures |r| == |s| - 1
  {
    s[..j] + s[j + 1..]
  }

  lemma WithoutMultiset<T>(s: seq<T>, j: nat)
    requires j < |s|
    ensures multiset(s) == multiset(Without(s, j)) + multiset{s[j]}
  {
    assert s == s[..j] + [s[j]] + s[j + 1..];
  }

  lemma IndexIn<T>(s: seq<T>, x: T) returns (j: nat)
    requires x in multiset(s)
    ensures j < |s| && s[j] == x
  {
    assert x in s;
    j :| 0 <= j < |s| && s[j] == x;
  }

  lemma {:induction false} DistinctMultiplicity(players: seq<ClusterPlayer>, p: ClusterPlayer)
    requires DistinctIDs(players)
    ensures multiset(players)[p] <= 1
  {
    if players != [] {
      var last := |players| - 1;
      DistinctMultiplicity(players[..last], p);
      assert players == players[..last] + [players[last]];
      assert forall j :: 0 <= j < last ==> players[..last][j] != players[last];
      assert players[last] !in players[..last];
    }
  }

  lemma DistinctPermuted(p: seq<ClusterPlayer>, q: seq<ClusterPlayer>)
    requires DistinctIDs(p) && multiset(p) == multiset(q)
    ensures DistinctIDs(q)
  {
    forall i, j | 0 <= i < j < |q|
      ensures q[i].id != q[j].id
    {
      assert q[i] in multiset(q) && q[j] in multiset(q);
      var i' := IndexIn(p, q[i]);
      var j' := IndexIn(p, q[j]);
      if i' == j' {
        WithoutMultiset(q, j);
        assert Without(q, j)[i] == q[i];
        assert multiset(q)[q[i]] >= 2;
        DistinctMultiplicity(p, q[i]);
      }
    }
  }

  /** Both assignments give the same cluster to the same player. */
  ghost predicate Agree(p: seq<ClusterPlayer>, a: seq<nat>, q: seq<ClusterPlayer>, b: seq<nat>)
    requires |a| == |p| && |b| == |q|
  {
    forall i, j :: 0 <= i < |p| && 0 <= j < |q| && p[i].id == q[j].id ==> a[i] == b[j]
  }

  // ----- Seeding -----------------------------------------------------------------

  lemma SortedHead(s: seq<ClusterPlayer>, t: seq<ClusterPlayer>)
    requires SortedByID(s) && SortedByID(t) && multiset(s) == multiset(t) && DistinctIDs(s) && s != [] && t != []
    ensures s[0] == t[0]
  {
    hide Precedes;
    assert s[0] in multiset(s) && t[0] in multiset(t);
    var i := IndexIn(s, t[0]);
    var j := IndexIn(t, s[0]);
    PrecedesTotal(s[0].id, t[0].id);
  }

  lemma SameTail<T>(s: seq<T>, t: seq<T>)
    requires multiset(s) == multiset(t) && s != [] && t != [] && s[0] == t[0]
    ensures multiset(s[1..]) == multiset(t[1..])
  {
    WithoutMultiset(s, 0);
    WithoutMultiset(t, 0);
    assert Without(s, 0) == s[1..] && Without(t, 0) == t[1..];
    assert multiset(s[1..]) == multiset(s) - multiset{s[0]};
  }

  lemma SortedTail(s: seq<ClusterPlayer>)
    requires SortedByID(s) && s != []
    ensures SortedByID(s[1..])
    ensures DistinctIDs(s) ==> DistinctIDs(s[1..])
  {
    hide Precedes;
  }

  lemma {:induction false} SortUnique(s: seq<ClusterPlayer>, t: seq<ClusterPlayer>)
    requires SortedByID(s) && SortedByID(t) && multiset(s) == multiset(t) && DistinctIDs(s)
    ensures s == t
  {
    assert |s| == |multiset(s)| == |multiset(t)| == |t|;
    if s != [] {
      SortedHead(s, t);
      SortedTail(s);
      SortedTail(t);
      SameTail(s, t);
      hide SortedByID, DistinctIDs;
      SortUnique(s[1..], t[1..]);
      assert s == [s[0]] + s[1..] && t == [t[0]] + t[1..];
    }
  }

  // ----- Centroid update ---------------------------------------------------------

  lemma {:induction false} MembersWithout(q: seq<ClusterPlayer>, b: seq<nat>, j: nat, c: nat)
    requires |b| == |q| && j < |q|
    ensures var rest := MembersOf(Without(q, j), Without(b, j), c);
      MembersOf(q, b, c) == if b[j] == c then rest.Add(q[j].pos) else rest
  {
    var last := |q| - 1;
    if j == last {
      assert Without(q, j) == q[..last] && Without(b, j) == b[..last];
    } else {
      MembersWithout(q[..last], b[..last], j, c);
      WithoutInit(q, j);
      WithoutInit(b, j);
    }
  }

  lemma WithoutInit<T>(s: seq<T>, j: nat)
    requires j < |s| - 1
    ensures var r, last := Without(s, j), |s| - 1;
      r[..last - 1] == Without(s[..last], j) && r[last - 1] == s[last]
  {
  }

  lemma DropMatch(p: seq<ClusterPlayer>, a: seq<nat>, q: seq<ClusterPlayer>, b: seq<nat>, j: nat)
    requires |a| == |p| > 0 && |b| == |q| && multiset(p) == multiset(q) && Agree(p, a, q, b)
    requires j < |q| && q[j] == p[|p| - 1]
    ensures var last := |p| - 1;
      multiset(p[..last]) == multiset(Without(q, j)) && Agree(p[..last], a[..last], Without(q, j), Without(b, j))
  {
    var last := |p| - 1;
    AgreeWithout(p, a, q, b, j);
    hide Agree;
    WithoutMultiset(q, j);
    WithoutMultiset(p, last);
    assert Without(p, last) == p[..last];
    hide Without;
    assert multiset(p[..last]) == multiset(p) - multiset{p[last]};
  }

  lemma AgreeWithout(p: seq<ClusterPlayer>, a: seq<nat>, q: seq<ClusterPlayer>, b: seq<nat>, j: nat)
    requires |a| == |p| > 0 && |b| == |q| && j < |q| && Agree(p, a, q, b)
    ensures Agree(p[..|p| - 1], a[..|p| - 1], Without(q, j), Without(b, j))
  {
    var last := |p| - 1;
    var q', b' := Without(q, j), Without(b, j);
    forall i, m | 0 <= i < last && 0 <= m < |q'| && p[..last][i].id == q'[m].id
      ensures a[..last][i] == b'[m]
    {
      var m' := if m < j then m else m + 1;
      assert q'[m] == q[m'] && b'[m] == b[m'];
    }
  }

  lemma {:induction false} MembersPermuted(p: seq<ClusterPlayer>, a: seq<nat>, q: seq<ClusterPlayer>, b: seq<nat>,
                                           c: nat)
    requires |a| == |p| && |b| == |q| && multiset(p) == multiset(q) && Agree(p, a, q, b)
    ensures MembersOf(p, a, c) == MembersOf(q, b, c)
  {
    assert |p| == |multiset(p)| == |multiset(q)| == |q|;
    if p != [] {
      var last := |p| - 1;
      assert p[last] in multiset(p);
      var j := IndexIn(q, p[last]);
      assert a[last] == b[j];
      DropMatch(p, a, q, b, j);
      MembersWithout(q, b, j, c);
      hide Agree, Without;
      MembersPermuted(p[..last], a[..last], Without(q, j), Without(b, j), c);
    }
  }

  // ----- The loop ----------------------------------------------------------------

  lemma RoundPermuted(p: seq<ClusterPlayer>, s: Lloyd, q: seq<ClusterPlayer>, t: Lloyd)
    requires multiset(p) == multiset(q) && DistinctIDs(p)
    requires s.centroids == t.centroids && |s.centroids| > 0
    ensures Round(p, s).centroids == Round(q, t).centroids
    ensures Agree(p, Round(p, s).assignment, q, Round(q, t).assignment)
  {
    var a, b := Assign(p, s.centroids), Assign(q, t.centroids);
    SamePlayer(p, q);
    assert Agree(p, a, q, b);
    forall c | 0 <= c < |s.centroids|
      ensures Recentre(p, a, s.centroids)[c] == Recentre(q, b, t.centroids)[c]
    {
      MembersPermuted(p, a, q, b, c);
    }
    assert Recentre(p, a, s.centroids) == Recentre(q, b, t.centroids);
  }

  // With distinct IDs, equal IDs in two permutations belong to the same record.
  lemma SamePlayer(p: seq<ClusterPlayer>, q: seq<ClusterPlayer>)
    requires multiset(p) == multiset(q) && DistinctIDs(p)
    ensures forall i, j :: 0 <= i < |p| && 0 <= j < |q| && p[i].id == q[j].id ==> p[i] == q[j]
  {
    forall i, j | 0 <= i < |p| && 0 <= j < |q| && p[i].id == q[j].id
      ensures p[i] == q[j]
    {
      assert q[j] in multiset(q);
      var i' := IndexIn(p, q[j]);
      assert p[i'].id == p[i].id;
    }
  }

  lemma SameChanges(p: seq<ClusterPlayer>, a: seq<nat>, a': seq<nat>, q: seq<ClusterPlayer>, b: seq<nat>, b': seq<nat>)
    requires |a| == |a'| == |p| && |b| == |b'| == |q| && multiset(p) == multiset(q)
    requires Agree(p, a, q, b) && Agree(p, a', q, b')
    ensures a == a' <==> b == b'
  {
    AgreeSymmetric(p, a, q, b);
    AgreeSymmetric(p, a', q, b');
    hide Agree;
    SameChange(p, a, a', q, b, b');
    SameChange(q, b, b', p, a, a');
  }

  lemma SameChange(p: seq<ClusterPlayer>, a: seq<nat>, a': seq<nat>, q: seq<ClusterPlayer>, b: seq<nat>, b': seq<nat>)
    requires |a| == |a'| == |p| && |b| == |b'| == |q| && multiset(p) == multiset(q)
    requires Agree(p, a, q, b) && Agree(p, a', q, b')
    ensures a == a' ==> b == b'
  {
    if a == a' {
      forall j | 0 <= j < |q|
        ensures b[j] == b'[j]
      {
        assert q[j] in multiset(q);
        var i := IndexIn(p, q[j]);
        assert p[i].id == q[j].id;
      }
    }
  }

  lemma {:induction false} IteratePermuted(p: seq<ClusterPlayer>, s: Lloyd, q: seq<ClusterPlayer>, t: Lloyd,
                                           budget: nat)
    requires multiset(p) == multiset(q) && DistinctIDs(p)
    requires s.centroids == t.centroids && |s.centroids| > 0
    requires AssignmentFor(p, s.assignment, |s.centroids|) && AssignmentFor(q, t.assignment, |t.centroids|)
    requires Agree(p, s.assignment, q, t.assignment)
    ensures Iterate(p, s, budget).final.centroids == Iterate(q, t, budget).final.centroids
    ensures Agree(p, Iterate(p, s, budget).final.assignment, q, Iterate(q, t, budget).final.assignment)
    decreases budget
  {
    hide Round, DistinctIDs, Agree;
    if budget > 0 {
      RoundPermuted(p, s, q, t);
      var s', t' := Round(p, s), Round(q, t);
      SameChanges(p, s'.assignment, s.assignment, q, t'.assignment, t.assignment);
      if s'.assignment != s.assignment {
        IteratePermuted(p, s', q, t', budget - 1);
      }
    }
  }

  lemma AgreeSymmetric(p: seq<ClusterPlayer>, a: seq<nat>, q: seq<ClusterPlayer>, b: seq<nat>)
    requires |a| == |p| && |b| == |q| && Agree(p, a, q, b)
    ensures Agree(q, b, p, a)
  {
  }

  // ----- Output ------------------------------------------------------------------

  /** Equal up to the order of the names inside a cluster. */
  ghost predicate SameOutput(x: ClusterOutput, y: ClusterOutput) {
    && x.k == y.k && x.assignments == y.assignments && x.centroids == y.centroids
    && x.clusters.Keys == y.clusters.Keys
    && forall c, id :: c in x.clusters ==> (id in x.clusters[c] <==> id in y.clusters[c])
  }

  lemma OutputPermuted(p: seq<ClusterPlayer>, a: seq<nat>, q: seq<ClusterPlayer>, b: seq<nat>, cs: seq<Pos>)
    requires |a| == |p| && |b| == |q| && multiset(p) == multiset(q) && DistinctIDs(p) && Agree(p, a, q, b)
    ensures SameOutput(BuildOutput(p, a, cs), BuildOutput(q, b, cs))
  {
    DistinctPermuted(p, q);
    var x, y := BuildOutput(p, a, cs), BuildOutput(q, b, cs);
    AssignmentsCarry(p, a, q, b);
    AgreeSymmetric(p, a, q, b);
    AssignmentsCarry(q, b, p, a);
    assert x.assignments == y.assignments;
    OutputInverse(p, a, cs);
    OutputInverse(q, b, cs);
    InverseDetermined(x, y);
    InverseDetermined(y, x);
  }

  lemma AssignmentsCarry(p: seq<ClusterPlayer>, a: seq<nat>, q: seq<ClusterPlayer>, b: seq<nat>)
    requires |a| == |p| && |b| == |q| && multiset(p) == multiset(q)
    requires DistinctIDs(p) && DistinctIDs(q) && Agree(p, a, q, b)
    ensures forall id :: id in AssignmentMap(p, a) ==>
      id in AssignmentMap(q, b) && AssignmentMap(q, b)[id] == AssignmentMap(p, a)[id]
  {
    AssignmentMapLookup(p, a);
    forall id | id in AssignmentMap(p, a)
      ensures id in AssignmentMap(q, b) && AssignmentMap(q, b)[id] == AssignmentMap(p, a)[id]
    {
      var i := LastOf(p, id);
      assert p[i] in multiset(p);
      var j := IndexIn(q, p[i]);
      DistinctLookup(p, a, i);
      DistinctLookup(q, b, j);
    }
  }

  lemma InverseDetermined(x: ClusterOutput, y: ClusterOutput)
    requires Inverse(x) && Inverse(y) && x.assignments == y.assignments
    ensures x.clusters.Keys <= y.clusters.Keys
    ensures forall c, id :: c in x.clusters && id in x.clusters[c] ==> c in y.clusters && id in y.clusters[c]
  {
    forall c | c in x.clusters
      ensures c in y.clusters
    {
      assert x.clusters[c][0] in x.clusters[c];
      assert y.assignments[x.clusters[c][0]] in y.clusters;
    }
  }

  // ----- Filtering ---------------------------------------------------------------

  lemma {:induction false} FilterMultiset(players: seq<ClusterPlayer>, p: ClusterPlayer)
    ensures multiset(NonEmptyIDs(players))[p] == if p.id == "" then 0 else multiset(players)[p]
  {
    if players != [] {
      var last := |players| - 1;
      FilterMultiset(players[..last], p);
      assert players == players[..last] + [players[last]];
    }
  }

  lemma FilterPermuted(p: seq<ClusterPlayer>, q: seq<ClusterPlayer>)
    requires multiset(p) == multiset(q)
    ensures multiset(NonEmptyIDs(p)) == multiset(NonEmptyIDs(q))
  {
    forall x ensures multiset(NonEmptyIDs(p))[x] == multiset(NonEmptyIDs(q))[x] {
      FilterMultiset(p, x);
      FilterMultiset(q, x);
    }
  }

  lemma FilterDistinct(p: seq<ClusterPlayer>, limit: int)
    requires DistinctIDs(p) && limit > 0
    ensures DistinctIDs(ValidPlayers(p, limit))
  {
    FilterKeepsDistinct(p);
  }

  lemma {:induction false} FilterKeepsDistinct(p: seq<ClusterPlayer>)
    requires DistinctIDs(p)
    ensures DistinctIDs(NonEmptyIDs(p))
  {
    if p != [] {
      var last := |p| - 1;
      FilterKeepsDistinct(p[..last]);
      var front := NonEmptyIDs(p[..last]);
      forall i | 0 <= i < |front| ensures front[i].id != p[last].id {
        assert front[i] in p[..last];
      }
    }
  }

  // ----- Compute -----------------------------------------------------------------

  // Compute reads the previous output only through its assignments and centroids.
  lemma PrevUpToOrder(valid: seq<ClusterPlayer>, sorted: seq<ClusterPlayer>, cfg: ClusterConfig, x: ClusterOutput,
                      y: ClusterOutput)
    requires ValidConfig(cfg) && |valid| == |sorted| && SameOutput(x, y)
    ensures Clustering(valid, sorted, cfg, Some(x)) == Clustering(valid, sorted, cfg, Some(y))
  {
    if valid != [] {
      hide LloydResult;
      var s := LloydResult(valid, sorted, cfg).final;
      assert Hysteresis(valid, s, Some(x), cfg.membershipHysteresis)
          == Hysteresis(valid, s, Some(y), cfg.membershipHysteresis);
    }
  }

  lemma ClusteringPermuted(p: seq<ClusterPlayer>, sp: seq<ClusterPlayer>, q: seq<ClusterPlayer>, sq: seq<ClusterPlayer>,
                           cfg: ClusterConfig, prev: Option<ClusterOutput>)
    requires ValidConfig(cfg) && multiset(p) == multiset(q) && DistinctIDs(p)
    requires IsSortOf(sp, p) && IsSortOf(sq, q)
    ensures |sp| == |p| && |sq| == |q|
    ensures SameOutput(Clustering(p, sp, cfg, prev), Clustering(q, sq, cfg, prev))
  {
    assert |p| == |multiset(p)| == |sp| && |q| == |multiset(q)| == |sq|;
    if p != [] {
      DistinctPermuted(p, sp);
      SortUnique(sp, sq);
      var k := ClusterCount(|p|, cfg.targetClusterSize);
      var s, t := Start(p, Seeds(sp, k)), Start(q, Seeds(sq, k));
      IteratePermuted(p, s, q, t, cfg.maxIterations);
      var s', t' := LloydResult(p, sp, cfg).final, LloydResult(q, sq, cfg).final;
      assert s' == Iterate(p, s, cfg.maxIterations).final && t' == Iterate(q, t, cfg.maxIterations).final;
      hide LloydResult, Iterate;
      SamePlayer(p, q);
      var a, b := Hysteresis(p, s', prev, cfg.membershipHysteresis), Hysteresis(q, t', prev, cfg.membershipHysteresis);
      HysteresisPermuted(p, s', q, t', prev, cfg.membershipHysteresis);
      OutputPermuted(p, a, q, b, s'.centroids);
    }
  }

  lemma HysteresisPermuted(p: seq<ClusterPlayer>, s: Lloyd, q: seq<ClusterPlayer>, t: Lloyd,
                           prev: Option<ClusterOutput>, margin: real)
    requires AssignmentFor(p, s.assignment, |s.centroids|) && AssignmentFor(q, t.assignment, |t.centroids|)
    requires s.centroids == t.centroids && Agree(p, s.assignment, q, t.assignment)
    requires forall i, j :: 0 <= i < |p| && 0 <= j < |q| && p[i].id == q[j].id ==> p[i] == q[j]
    ensures Agree(p, Hysteresis(p, s, prev, margin), q, Hysteresis(q, t, prev, margin))
  {
    hide Stabilise;
  }

  /** Permuting an input of distinct IDs that fits MaxPlayersPerRoom changes neither K, nor the
      assignments, nor the centroids, nor any cluster's member set. */
  lemma OrderIndependent(p: seq<ClusterPlayer>, sp: seq<ClusterPlayer>, q: seq<ClusterPlayer>, sq: seq<ClusterPlayer>,
                         cfg: ClusterConfig, prev: Option<ClusterOutput>)
    requires ValidConfig(cfg) && multiset(p) == multiset(q) && DistinctIDs(p)
    requires |NonEmptyIDs(p)| <= cfg.maxPlayersPerRoom
    requires IsSortOf(sp, ValidPlayers(p, cfg.maxPlayersPerRoom))
    requires IsSortOf(sq, ValidPlayers(q, cfg.maxPlayersPerRoom))
    ensures |sp| == |ValidPlayers(p, cfg.maxPlayersPerRoom)| && |sq| == |ValidPlayers(q, cfg.maxPlayersPerRoom)|
    ensures SameOutput(Clustering(ValidPlayers(p, cfg.maxPlayersPerRoom), sp, cfg, prev),
                       Clustering(ValidPlayers(q, cfg.maxPlayersPerRoom), sq, cfg, prev))
  {
    FilterPermuted(p, q);
    assert |NonEmptyIDs(p)| == |multiset(NonEmptyIDs(p))| == |NonEmptyIDs(q)|;
    FilterDistinct(p, cfg.maxPlayersPerRoom);
    ClusteringPermuted(ValidPlayers(p, cfg.maxPlayersPerRoom), sp,
                       ValidPlayers(q, cfg.maxPlayersPerRoom), sq, cfg, prev);
  }

  // ----- Past the limit ----------------------------------------------------------

  lemma {:induction false} FilterPrepend(x: ClusterPlayer, rest: seq<ClusterPlayer>)
    requires x.id != ""
    ensures NonEmptyIDs([x] + rest) == [x] + NonEmptyIDs(rest)
  {
    var all := [x] + rest;
    if rest == [] {
      assert all[..0] == [];
    } else {
      var front := rest[..|rest| - 1];
      FilterPrepend(x, front);
      assert all[..|all| - 1] == [x] + front && all[|all| - 1] == rest[|rest| - 1];
    }
  }

  /** Past the limit the order decides who is dropped: listing the first dropped player first lets it in. */
  lemma TruncationDependsOnOrder(p: seq<ClusterPlayer>, limit: int) returns (q: seq<ClusterPlayer>)
    requires DistinctIDs(p) && 0 < limit < |NonEmptyIDs(p)|
    ensures multiset(q) == multiset(p)
    ensures IDs(ValidPlayers(q, limit)) != IDs(ValidPlayers(p, limit))
  {
    var x := NonEmptyIDs(p)[limit];
    q := MovedFirst(p, x);
    FilterKeepsDistinct(p);
    assert ValidPlayers(q, limit)[0] == x;
    hide NonEmptyIDs, DistinctIDs;
    assert x.id in IDs(ValidPlayers(q, limit));
    NotInPrefix(NonEmptyIDs(p), limit);
  }

  lemma MovedFirst(p: seq<ClusterPlayer>, x: ClusterPlayer) returns (q: seq<ClusterPlayer>)
    requires x in p && x.id != ""
    ensures multiset(q) == multiset(p) && NonEmptyIDs(q) != [] && NonEmptyIDs(q)[0] == x
  {
    var j := IndexIn(p, x);
    var rest := Without(p, j);
    q := [x] + rest;
    WithoutMultiset(p, j);
    FilterPrepend(x, rest);
  }

  lemma NotInPrefix(players: seq<ClusterPlayer>, n: nat)
    requires DistinctIDs(players) && n < |players|
    ensures players[n].id !in IDs(players[..n])
  {
  }

  /** One way a call may see the players p: some order of them, sorted somehow. */
  ghost predicate Presents(q: seq<ClusterPlayer>, sorted: seq<ClusterPlayer>, p: seq<ClusterPlayer>, limit: int)
    requires limit > 0
  {
    multiset(q) == multiset(p) && IsSortOf(sorted, ValidPlayers(q, limit)) && |sorted| == |ValidPlayers(q, limit)|
  }

  /** However the players are presented, the output is the same. */
  ghost predicate OrderIrrelevant(p: seq<ClusterPlayer>, cfg: ClusterConfig, prev: Option<ClusterOutput>)
    requires ValidConfig(cfg)
  {
    var limit := cfg.maxPlayersPerRoom;
    forall q, sq, r, sr :: Presents(q, sq, p, limit) && Presents(r, sr, p, limit) ==>
      SameOutput(Clustering(ValidPlayers(q, limit), sq, cfg, prev), Clustering(ValidPlayers(r, limit), sr, cfg, prev))
  }

  /** For distinct IDs the order of the input is irrelevant if and only if the named players fit
      MaxPlayersPerRoom. */
  lemma OrderIrrelevantExactly(p: seq<ClusterPlayer>, cfg: ClusterConfig, prev: Option<ClusterOutput>)
    requires ValidConfig(cfg) && DistinctIDs(p)
    ensures OrderIrrelevant(p, cfg, prev) <==> |NonEmptyIDs(p)| <= cfg.maxPlayersPerRoom
  {
    var limit := cfg.maxPlayersPerRoom;
    if |NonEmptyIDs(p)| <= limit {
      forall q, sq, r, sr | Presents(q, sq, p, limit) && Presents(r, sr, p, limit)
        ensures SameOutput(Clustering(ValidPlayers(q, limit), sq, cfg, prev),
                           Clustering(ValidPlayers(r, limit), sr, cfg, prev))
      {
        hide Clustering, IsSortOf;
        DistinctPermuted(p, q);
        FilterPermuted(p, q);
        assert |NonEmptyIDs(q)| == |multiset(NonEmptyIDs(q))| == |NonEmptyIDs(p)|;
        OrderIndependent(q, sq, r, sr, cfg, prev);
      }
    } else {
      var q := TruncationDependsOnOrder(p, limit);
      var sp := SortByID(ValidPlayers(p, limit));
      var sq := SortByID(ValidPlayers(q, limit));
      hide Clustering, ValidPlayers, IsSortOf;
      ClusteringInRange(ValidPlayers(p, limit), sp, cfg, prev);
      ClusteringInRange(ValidPlayers(q, limit), sq, cfg, prev);
      assert Presents(p, sp, p, limit) && Presents(q, sq, p, limit);
    }
  }
}
