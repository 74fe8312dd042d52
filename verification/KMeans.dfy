// The K-Means allocator as functions: deterministic seeding, Lloyd iteration,
// the hysteresis pass and the output record (internal/game/cluster).

module KMeans {
  import opened Common
  import opened Arithmetic
  import opened Geometry

  datatype ClusterPlayer = ClusterPlayer(id: PlayerID, pos: Pos)

  datatype ClusterConfig = ClusterConfig(
    enabled: bool,
    targetClusterSize: int,
    reclusterIntervalTicks: int,
    movementThreshold: real,
    membershipHysteresis: real,
    maxIterations: int,
    maxPlayersPerRoom: int)

  predicate ValidConfig(cfg: ClusterConfig) {
    cfg.targetClusterSize > 0 && cfg.maxIterations > 0 && cfg.maxPlayersPerRoom > 0
  }

  datatype ClusterOutput = ClusterOutput(
    assignments: map<PlayerID, nat>,
    clusters: map<nat, seq<PlayerID>>,
    centroids: map<nat, Pos>,
    k: nat)

  const EMPTY_OUTPUT := ClusterOutput(map[], map[], map[], 0)

  ghost predicate DistinctIDs(players: seq<ClusterPlayer>) {
    forall i, j :: 0 <= i < j < |players| ==> players[i].id != players[j].id
  }

  // ----- Input filtering ------------------------------------------------------

  function NonEmptyIDs(players: seq<ClusterPlayer>): (r: seq<ClusterPlayer>)
    ensures |r| <= |players|
    ensures forall i :: 0 <= i < |r| ==> r[i].id != "" && r[i] in players
  {
    if players == [] then []
    else
      var rest := NonEmptyIDs(players[..|players| - 1]);
      var last := players[|players| - 1];
      if last.id == "" then rest else rest + [last]
  }

  function ValidPlayers(players: seq<ClusterPlayer>, limit: int): (r: seq<ClusterPlayer>)
    requires limit > 0
    ensures |r| <= limit
    ensures forall i :: 0 <= i < |r| ==> r[i].id != "" && r[i] in players
  {
    var named := NonEmptyIDs(players);
    if |named| <= limit then named else named[..limit]
  }

  // ----- Number of clusters ----------------------------------------------------

  /** ceil(n / targetSize), clamped to [1, n]; the clamps never bite. */
  function ClusterCount(n: nat, targetSize: int): (k: nat)
    requires n > 0 && targetSize > 0
    ensures 1 <= k <= n
    ensures (k - 1) * targetSize < n <= k * targetSize
  {
    var q := (n + targetSize - 1) / targetSize;
    CeilDivision(n, targetSize, q);
    var k := if q < 1 then 1 else q;
    if k > n then n else k
  }

  lemma CeilDivision(n: nat, t: int, q: int)
    requires n > 0 && t > 0 && q == (n + t - 1) / t
    ensures 1 <= q <= n && (q - 1) * t < n <= q * t
  {
    var rem := (n + t - 1) % t;
    assert q * t == n + t - 1 - rem;
    assert (q - 1) * t == q * t - t;
    CancelFactor(0, q, t);
    assert n <= n * t;
    CancelFactor(q - 1, n, t);
  }

  // ----- Seeding ---------------------------------------------------------------

  /** Go's string order: lexicographic. */
  predicate Precedes(a: string, b: string) {
    if b == "" then false
    else if a == "" then true
    else if a[0] == b[0] then Precedes(a[1..], b[1..])
    else a[0] < b[0]
  }

  lemma PrecedesTotal(a: string, b: string)
    ensures !(Precedes(a, b) && Precedes(b, a))
    ensures Precedes(a, b) || Precedes(b, a) || a == b
    ensures !Precedes(a, a)
  {
    if a != "" {
      PrecedesTotal(a[1..], a[1..]);
      if b != "" && a[0] == b[0] {
        PrecedesTotal(a[1..], b[1..]);
        if a[1..] == b[1..] {
          assert a == [a[0]] + a[1..] == b;
        }
      }
    }
  }

  lemma PrecedesTransitive(a: string, b: string, c: string)
    requires Precedes(a, b) && Precedes(b, c)
    ensures Precedes(a, c)
  {
    if a != "" && a[0] == b[0] == c[0] {
      PrecedesTransitive(a[1..], b[1..], c[1..]);
    }
  }

  ghost predicate SortedByID(players: seq<ClusterPlayer>) {
    forall i, j :: 0 <= i < j < |players| ==> !Precedes(players[j].id, players[i].id)
  }

  /** A result the unstable library sort may return. */
  ghost predicate IsSortOf(sorted: seq<ClusterPlayer>, players: seq<ClusterPlayer>) {
    SortedByID(sorted) && multiset(sorted) == multiset(players)
  }

  function InsertByID(sorted: seq<ClusterPlayer>, p: ClusterPlayer): (r: seq<ClusterPlayer>)
    requires SortedByID(sorted)
    ensures SortedByID(r) && multiset(r) == multiset(sorted) + multiset{p}
  {
    if sorted == [] then [p]
    else
      var last := |sorted| - 1;
      assert sorted == sorted[..last] + [sorted[last]];
      if Precedes(p.id, sorted[last].id) then
        var below := InsertByID(sorted[..last], p);
        InsertedBelow(sorted, p, below);
        below + [sorted[last]]
      else
        NotBefore(sorted, p);
        sorted + [p]
  }

  lemma InsertedBelow(sorted: seq<ClusterPlayer>, p: ClusterPlayer, below: seq<ClusterPlayer>)
    requires SortedByID(sorted) && sorted != [] && Precedes(p.id, sorted[|sorted| - 1].id)
    requires multiset(below) == multiset(sorted[..|sorted| - 1]) + multiset{p}
    ensures forall j :: 0 <= j < |below| ==> !Precedes(sorted[|sorted| - 1].id, below[j].id)
  {
    hide Precedes;
    var last := |sorted| - 1;
    PrecedesTotal(p.id, sorted[last].id);
    forall j | 0 <= j < |below|
      ensures !Precedes(sorted[last].id, below[j].id)
    {
      assert below[j] in multiset(below);
      assert below[j] == p || below[j] in sorted[..last];
    }
  }

  lemma NotBefore(sorted: seq<ClusterPlayer>, p: ClusterPlayer)
    requires SortedByID(sorted) && sorted != [] && !Precedes(p.id, sorted[|sorted| - 1].id)
    ensures forall j :: 0 <= j < |sorted| ==> !Precedes(p.id, sorted[j].id)
  {
    hide Precedes;
    var last := |sorted| - 1;
    forall j | 0 <= j < last
      ensures !Precedes(p.id, sorted[j].id)
    {
      PrecedesTotal(sorted[j].id, sorted[last].id);
      if Precedes(p.id, sorted[j].id) && sorted[j].id != sorted[last].id {
        PrecedesTransitive(p.id, sorted[j].id, sorted[last].id);
      }
    }
  }

  /** Stands for the library sort: only sortedness and permutation are relied on. */
  function SortByID(players: seq<ClusterPlayer>): (sorted: seq<ClusterPlayer>)
    ensures IsSortOf(sorted, players) && |sorted| == |players|
  {
    if players == [] then []
    else
      var last := |players| - 1;
      var sorted := InsertByID(SortByID(players[..last]), players[last]);
      assert players == players[..last] + [players[last]];
      assert |sorted| == |multiset(sorted)| == |multiset(players)|;
      sorted
  }

  function Seeds(sorted: seq<ClusterPlayer>, k: nat): (cs: seq<Pos>)
    requires k <= |sorted|
    ensures |cs| == k
  {
    seq(k, i requires 0 <= i < k => sorted[i].pos)
  }

  // ----- Assignment ------------------------------------------------------------

  /** `best` is the lowest-index centroid at minimal distance from `pos`. */
  ghost predicate IsNearest(pos: Pos, cs: seq<Pos>, best: nat) {
    && best < |cs|
    && (forall i :: 0 <= i < best ==> SqDist(pos, cs[best]) < SqDist(pos, cs[i]))
    && (forall i :: 0 <= i < |cs| ==> SqDist(pos, cs[best]) <= SqDist(pos, cs[i]))
  }

  function Nearest(pos: Pos, cs: seq<Pos>): (best: nat)
    requires |cs| > 0
    ensures best < |cs|
  {
    var last := |cs| - 1;
    if last == 0 then 0
    else
      var best := Nearest(pos, cs[..last]);
      if SqDist(pos, cs[last]) < SqDist(pos, cs[best]) then last else best
  }

  lemma {:induction false} NearestIsNearest(pos: Pos, cs: seq<Pos>)
    requires |cs| > 0
    ensures IsNearest(pos, cs, Nearest(pos, cs))
  {
    var last := |cs| - 1;
    if last > 0 {
      NearestIsNearest(pos, cs[..last]);
      var front := cs[..last];
      assert forall i :: 0 <= i < last ==> front[i] == cs[i];
    }
  }

  lemma NearestUnique(pos: Pos, cs: seq<Pos>, a: nat, b: nat)
    requires IsNearest(pos, cs, a) && IsNearest(pos, cs, b)
    ensures a == b
  {
    assert SqDist(pos, cs[a]) == SqDist(pos, cs[b]);
  }

  function Assign(players: seq<ClusterPlayer>, cs: seq<Pos>): (r: seq<nat>)
    requires |cs| > 0
    ensures AssignmentFor(players, r, |cs|)
  {
    seq(|players|, i requires 0 <= i < |players| => Nearest(players[i].pos, cs))
  }

  ghost predicate AssignmentFor(players: seq<ClusterPlayer>, a: seq<nat>, k: nat) {
    |a| == |players| && forall i :: 0 <= i < |a| ==> a[i] < k
  }

  // ----- Centroid update -------------------------------------------------------

  datatype Tally = Tally(count: nat, sumX: real, sumZ: real) {
    function Add(p: Pos): Tally {
      Tally(count + 1, sumX + p.x, sumZ + p.z)
    }

    function Mean(): Pos
      requires count > 0
    {
      Pos(sumX / count as real, sumZ / count as real)
    }
  }

  const NO_MEMBERS := Tally(0, 0.0, 0.0)

  /** Member count and coordinate sums of cluster c. */
  function MembersOf(players: seq<ClusterPlayer>, a: seq<nat>, c: nat): Tally
    requires |a| == |players|
  {
    if players == [] then NO_MEMBERS
    else
      var last := |players| - 1;
      var t := MembersOf(players[..last], a[..last], c);
      if a[last] == c then t.Add(players[last].pos) else t
  }

  function MeanOr(t: Tally, kept: Pos): Pos {
    if t.count > 0 then t.Mean() else kept
  }

  function Recentre(players: seq<ClusterPlayer>, a: seq<nat>, cs: seq<Pos>): (r: seq<Pos>)
    requires |a| == |players|
    ensures |r| == |cs|
  {
    seq(|cs|, c requires 0 <= c < |cs| => MeanOr(MembersOf(players, a, c), cs[c]))
  }

  // ----- The loop --------------------------------------------------------------

  datatype Lloyd = Lloyd(assignment: seq<nat>, centroids: seq<Pos>)

  function Round(players: seq<ClusterPlayer>, s: Lloyd): (r: Lloyd)
    requires |s.centroids| > 0
    ensures |r.centroids| == |s.centroids|
    ensures AssignmentFor(players, r.assignment, |r.centroids|)
  {
    var a := Assign(players, s.centroids);
    Lloyd(a, Recentre(players, a, s.centroids))
  }

  datatype Outcome = Outcome(final: Lloyd, rounds: nat, settled: bool)

  /** At most `budget` rounds, stopping after the first one that changes no assignment. */
  function Iterate(players: seq<ClusterPlayer>, s: Lloyd, budget: nat): (r: Outcome)
    requires AssignmentFor(players, s.assignment, |s.centroids|) && |s.centroids| > 0
    ensures |r.final.centroids| == |s.centroids|
    ensures AssignmentFor(players, r.final.assignment, |s.centroids|)
    ensures r.rounds <= budget
    decreases budget
  {
    if budget == 0 then Outcome(s, 0, false)
    else
      var next := Round(players, s);
      if next.assignment == s.assignment then Outcome(next, 1, true)
      else
        var r := Iterate(players, next, budget - 1);
        r.(rounds := r.rounds + 1)
  }

  function Start(players: seq<ClusterPlayer>, seeds: seq<Pos>): (s: Lloyd)
    requires |seeds| > 0
    ensures AssignmentFor(players, s.assignment, |s.centroids|)
  {
    Lloyd(seq(|players|, _ => 0), seeds)
  }

  // ----- Hysteresis ------------------------------------------------------------

  function Stabilise(p: ClusterPlayer, mine: nat, cs: seq<Pos>, prev: ClusterOutput, margin: real): (r: nat)
    requires mine < |cs|
    ensures r < |cs|
  {
    if p.id !in prev.assignments || prev.assignments[p.id] !in prev.centroids then mine
    else
      var before := prev.centroids[prev.assignments[p.id]];
      if StaysWithin(SqDist(p.pos, cs[mine]), SqDist(p.pos, before), margin)
      then Nearest(before, cs) else mine
  }

  function Hysteresis(players: seq<ClusterPlayer>, s: Lloyd, prev: Option<ClusterOutput>, margin: real): (r: seq<nat>)
    requires AssignmentFor(players, s.assignment, |s.centroids|)
    ensures AssignmentFor(players, r, |s.centroids|)
  {
    if prev.None? || margin <= 0.0 then s.assignment
    else seq(|players|, i requires 0 <= i < |players| =>
               Stabilise(players[i], s.assignment[i], s.centroids, prev.value, margin))
  }

  // ----- Output ----------------------------------------------------------------

  function AssignmentMap(players: seq<ClusterPlayer>, a: seq<nat>): (m: map<PlayerID, nat>)
    requires |a| == |players|
  {
    if players == [] then map[]
    else
      var last := |players| - 1;
      AssignmentMap(players[..last], a[..last])[players[last].id := a[last]]
  }

  function MembersIn(clusters: map<nat, seq<PlayerID>>, c: nat): seq<PlayerID> {
    if c in clusters then clusters[c] else []
  }

  function ClusterMap(players: seq<ClusterPlayer>, a: seq<nat>): (m: map<nat, seq<PlayerID>>)
    requires |a| == |players|
  {
    if players == [] then map[]
    else
      var last := |players| - 1;
      var m := ClusterMap(players[..last], a[..last]);
      m[a[last] := MembersIn(m, a[last]) + [players[last].id]]
  }

  function BuildOutput(players: seq<ClusterPlayer>, a: seq<nat>, cs: seq<Pos>): (out: ClusterOutput)
    requires |a| == |players|
  {
    ClusterOutput(AssignmentMap(players, a), ClusterMap(players, a), map c: nat | 0 <= c < |cs| :: cs[c], |cs|)
  }

  // ----- Compute ---------------------------------------------------------------

  function LloydResult(valid: seq<ClusterPlayer>, sorted: seq<ClusterPlayer>, cfg: ClusterConfig): (r: Outcome)
    requires ValidConfig(cfg) && 0 < |valid| == |sorted|
    ensures |r.final.centroids| == ClusterCount(|valid|, cfg.targetClusterSize)
    ensures AssignmentFor(valid, r.final.assignment, |r.final.centroids|)
  {
    Iterate(valid, Start(valid, Seeds(sorted, ClusterCount(|valid|, cfg.targetClusterSize))), cfg.maxIterations)
  }

  /** One Compute call on already filtered players, sorted as `sorted`. */
  function Clustering(valid: seq<ClusterPlayer>, sorted: seq<ClusterPlayer>, cfg: ClusterConfig,
                      prev: Option<ClusterOutput>): (out: ClusterOutput)
    requires ValidConfig(cfg) && |valid| == |sorted|
  {
    if valid == [] then EMPTY_OUTPUT
    else
      var s := LloydResult(valid, sorted, cfg).final;
      BuildOutput(valid, Hysteresis(valid, s, prev, cfg.membershipHysteresis), s.centroids)
  }
}
