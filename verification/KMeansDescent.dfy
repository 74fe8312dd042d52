// Lloyd iteration descends: neither half-step raises the total squared distance,
// and from the first round on every changing round lowers a lexicographic measure,
// so no assignment recurs and the loop stops without its iteration cap.

module KMeansDescent {
  import opened Arithmetic
  import opened Geometry
  import opened KMeans

  // ----- Total squared distance --------------------------------------------------

  ghost function Cost(players: seq<ClusterPlayer>, a: seq<nat>, cs: seq<Pos>): real
    requires AssignmentFor(players, a, |cs|)
  {
    if players == [] then 0.0
    else
      var last := |players| - 1;
      Cost(players[..last], a[..last], cs) + SqDist(players[last].pos, cs[a[last]])
  }

  lemma {:induction false} CostReadsOwnCentroids(players: seq<ClusterPlayer>, a: seq<nat>, cs: seq<Pos>, ds: seq<Pos>)
    requires AssignmentFor(players, a, |cs|) && AssignmentFor(players, a, |ds|)
    requires forall i :: 0 <= i < |a| ==> cs[a[i]] == ds[a[i]]
    ensures Cost(players, a, cs) == Cost(players, a, ds)
  {
    if players != [] {
      CostReadsOwnCentroids(players[..|players| - 1], a[..|players| - 1], cs, ds);
    }
  }

  // ----- The assignment half-step ------------------------------------------------

  // Reassigning to nearest centroids lowers the cost, or keeps it and raises no index.
  lemma {:induction false} AssignDescends(players: seq<ClusterPlayer>, a: seq<nat>, cs: seq<Pos>)
    requires AssignmentFor(players, a, |cs|) && |cs| > 0
    ensures AssignmentFor(players, Assign(players, cs), |cs|)
    ensures Cost(players, Assign(players, cs), cs) <= Cost(players, a, cs)
    ensures Cost(players, Assign(players, cs), cs) == Cost(players, a, cs)
      ==> forall i :: 0 <= i < |a| ==> Assign(players, cs)[i] <= a[i]
  {
    if players != [] {
      var last := |players| - 1;
      AssignDescends(players[..last], a[..last], cs);
      assert Assign(players, cs)[..last] == Assign(players[..last], cs);
      var best := Assign(players, cs)[last];
      NearestIsNearest(players[last].pos, cs);
      assert SqDist(players[last].pos, cs[best]) <= SqDist(players[last].pos, cs[a[last]]);
      assert forall i :: 0 <= i < last ==> a[..last][i] == a[i];
    }
  }

  // ----- The centroid half-step --------------------------------------------------

  /** Change of cost along one axis when the centroid of n members with this coordinate sum moves. */
  ghost function AxisShift(n: real, sum: real, from: real, to: real): real {
    n * (to * to - from * from) - 2.0 * ((to - from) * sum)
  }

  /** Change of a cluster's cost when its centroid moves. */
  ghost function Shift(t: Tally, from: Pos, to: Pos): real {
    AxisShift(t.count as real, t.sumX, from.x, to.x) + AxisShift(t.count as real, t.sumZ, from.z, to.z)
  }

  lemma ShiftOfOneMore(t: Tally, p: Pos, from: Pos, to: Pos)
    ensures Shift(t.Add(p), from, to) == Shift(t, from, to) + SqDist(p, to) - SqDist(p, from)
  {
    hide AxisShift, Square;
    AxisOneMore(t.count as real, t.sumX, p.x, from.x, to.x);
    AxisOneMore(t.count as real, t.sumZ, p.z, from.z, to.z);
  }

  lemma AxisOneMore(n: real, sum: real, p: real, from: real, to: real)
    ensures AxisShift(n + 1.0, sum + p, from, to) == AxisShift(n, sum, from, to) + Square(p - to) - Square(p - from)
  {
    SquareOfDifference(p, to);
    SquareOfDifference(p, from);
    var gap, step := to * to - from * from, to - from;
    assert (n + 1.0) * gap == n * gap + gap;
    assert step * (sum + p) == step * sum + step * p;
    assert step * p == to * p - from * p;
  }

  lemma SquareOfDifference(a: real, b: real)
    ensures Square(a - b) == a * a - 2.0 * (a * b) + b * b
  {
  }

  lemma {:induction false} MoveCentroid(players: seq<ClusterPlayer>, a: seq<nat>, cs: seq<Pos>, c: nat, to: Pos)
    requires AssignmentFor(players, a, |cs|) && c < |cs|
    ensures Cost(players, a, cs[c := to]) == Cost(players, a, cs) + Shift(MembersOf(players, a, c), cs[c], to)
  {
    if players != [] {
      var last := |players| - 1;
      MoveCentroid(players[..last], a[..last], cs, c, to);
      if a[last] == c {
        ShiftOfOneMore(MembersOf(players[..last], a[..last], c), players[last].pos, cs[c], to);
      }
    }
  }

  /** Huygens: moving a centroid to its members' mean saves count * squared distance. */
  lemma MeanIsOptimal(t: Tally, from: Pos)
    requires t.count > 0
    ensures Shift(t, from, t.Mean()) == -(t.count as real * SqDist(from, t.Mean()))
    ensures Shift(t, from, t.Mean()) <= 0.0
  {
    var n, m := t.count as real, t.Mean();
    AxisOptimal(n, t.sumX, from.x, m.x);
    AxisOptimal(n, t.sumZ, from.z, m.z);
    hide AxisShift, Square;
    var x, z := Square(from.x - m.x), Square(from.z - m.z);
    assert x + z == SqDist(from, m);
    assert n * (x + z) == n * x + n * z;
    ProductMonotone(0.0, n, 0.0, x + z);
  }

  lemma AxisOptimal(n: real, sum: real, from: real, mean: real)
    requires n > 0.0 && mean == sum / n
    ensures AxisShift(n, sum, from, mean) == -(n * Square(from - mean))
  {
    assert sum == n * mean;
    SquareOfDifference(from, mean);
    var step := mean - from;
    assert step * sum == step * mean * n;
    assert step * mean == mean * mean - from * mean;
  }

  /** The centroids after the first j clusters have been recentred. */
  ghost function RecentredUpTo(players: seq<ClusterPlayer>, a: seq<nat>, cs: seq<Pos>, j: nat): (r: seq<Pos>)
    requires |a| == |players| && j <= |cs|
    ensures |r| == |cs|
  {
    Recentre(players, a, cs)[..j] + cs[j..]
  }

  lemma {:induction false} RecentreDescendsUpTo(players: seq<ClusterPlayer>, a: seq<nat>, cs: seq<Pos>, j: nat)
    requires AssignmentFor(players, a, |cs|) && j <= |cs|
    ensures Cost(players, a, RecentredUpTo(players, a, cs, j)) <= Cost(players, a, cs)
  {
    if j == 0 {
      assert RecentredUpTo(players, a, cs, 0) == cs;
    } else {
      RecentreDescendsUpTo(players, a, cs, j - 1);
      var before := RecentredUpTo(players, a, cs, j - 1);
      var t := MembersOf(players, a, j - 1);
      var to := MeanOr(t, cs[j - 1]);
      assert RecentredUpTo(players, a, cs, j) == before[j - 1 := to];
      if t.count > 0 {
        MoveCentroid(players, a, before, j - 1, to);
        MeanIsOptimal(t, before[j - 1]);
      } else {
        assert before[j - 1 := to] == before;
      }
    }
  }

  lemma RecentreDescends(players: seq<ClusterPlayer>, a: seq<nat>, cs: seq<Pos>)
    requires AssignmentFor(players, a, |cs|)
    ensures Cost(players, a, Recentre(players, a, cs)) <= Cost(players, a, cs)
  {
    RecentreDescendsUpTo(players, a, cs, |cs|);
    assert RecentredUpTo(players, a, cs, |cs|) == Recentre(players, a, cs);
  }

  /** Neither half of a round raises the total squared distance. */
  lemma RoundDescends(players: seq<ClusterPlayer>, s: Lloyd)
    requires AssignmentFor(players, s.assignment, |s.centroids|) && |s.centroids| > 0
    ensures var next := Round(players, s);
      Cost(players, next.assignment, next.centroids) <= Cost(players, next.assignment, s.centroids)
        <= Cost(players, s.assignment, s.centroids)
  {
    AssignDescends(players, s.assignment, s.centroids);
    RecentreDescends(players, Assign(players, s.centroids), s.centroids);
  }

  // ----- The measure -------------------------------------------------------------

  ghost function Origins(k: nat): (r: seq<Pos>)
    ensures |r| == k
  {
    seq(k, _ => Pos(0.0, 0.0))
  }

  /** Cost of an assignment under the means of its own clusters. */
  ghost function OwnCost(players: seq<ClusterPlayer>, a: seq<nat>, k: nat): real
    requires AssignmentFor(players, a, k)
  {
    Cost(players, a, Recentre(players, a, Origins(k)))
  }

  lemma {:induction false} MembersCounted(players: seq<ClusterPlayer>, a: seq<nat>, i: nat)
    requires |a| == |players| && i < |a|
    ensures MembersOf(players, a, a[i]).count > 0
  {
    var last := |players| - 1;
    if i < last {
      MembersCounted(players[..last], a[..last], i);
    }
  }

  lemma OwnCostOfRecentred(players: seq<ClusterPlayer>, a: seq<nat>, cs: seq<Pos>)
    requires AssignmentFor(players, a, |cs|)
    ensures Cost(players, a, Recentre(players, a, cs)) == OwnCost(players, a, |cs|)
  {
    forall i | 0 <= i < |a|
      ensures Recentre(players, a, cs)[a[i]] == Recentre(players, a, Origins(|cs|))[a[i]]
    {
      MembersCounted(players, a, i);
    }
    CostReadsOwnCentroids(players, a, Recentre(players, a, cs), Recentre(players, a, Origins(|cs|)));
  }

  ghost function IndexSum(a: seq<nat>): nat {
    if a == [] then 0 else IndexSum(a[..|a| - 1]) + a[|a| - 1]
  }

  lemma {:induction false} IndexSumOrder(a: seq<nat>, b: seq<nat>)
    requires |a| == |b| && forall i :: 0 <= i < |a| ==> a[i] <= b[i]
    ensures IndexSum(a) <= IndexSum(b)
    ensures a != b ==> IndexSum(a) < IndexSum(b)
  {
    if a != [] {
      var last := |a| - 1;
      IndexSumOrder(a[..last], b[..last]);
      assert a == a[..last] + [a[last]] && b == b[..last] + [b[last]];
    }
  }

  /** The termination order: cheaper, or equally cheap with smaller cluster indices. */
  ghost predicate Below(players: seq<ClusterPlayer>, a: seq<nat>, b: seq<nat>, k: nat)
    requires AssignmentFor(players, a, k) && AssignmentFor(players, b, k)
  {
    || OwnCost(players, a, k) < OwnCost(players, b, k)
    || (OwnCost(players, a, k) == OwnCost(players, b, k) && IndexSum(a) < IndexSum(b))
  }

  // ----- Whole runs of the loop --------------------------------------------------

  /** The state after j rounds, ignoring both exits. */
  ghost function After(players: seq<ClusterPlayer>, s: Lloyd, j: nat): (r: Lloyd)
    requires AssignmentFor(players, s.assignment, |s.centroids|) && |s.centroids| > 0
    ensures |r.centroids| == |s.centroids|
    ensures AssignmentFor(players, r.assignment, |s.centroids|)
  {
    if j == 0 then s else Round(players, After(players, s, j - 1))
  }

  /** From the first round on, a round that changes the assignment lowers the measure. */
  lemma ChangingRoundDescends(players: seq<ClusterPlayer>, s: Lloyd, j: nat)
    requires AssignmentFor(players, s.assignment, |s.centroids|) && |s.centroids| > 0
    requires j >= 1
    requires After(players, s, j + 1).assignment != After(players, s, j).assignment
    ensures Below(players, After(players, s, j + 1).assignment, After(players, s, j).assignment, |s.centroids|)
  {
    var x, y := After(players, s, j), After(players, s, j + 1);
    OwnCostOfRecentred(players, x.assignment, After(players, s, j - 1).centroids);
    OwnCostOfRecentred(players, y.assignment, x.centroids);
    AssignDescends(players, x.assignment, x.centroids);
    RecentreDescends(players, y.assignment, x.centroids);
    if Cost(players, y.assignment, x.centroids) == Cost(players, x.assignment, x.centroids) {
      IndexSumOrder(y.assignment, x.assignment);
    }
  }

  ghost predicate Changes(players: seq<ClusterPlayer>, s: Lloyd, m: nat)
    requires AssignmentFor(players, s.assignment, |s.centroids|) && |s.centroids| > 0
  {
    After(players, s, m + 1).assignment != After(players, s, m).assignment
  }

  ghost predicate KeepsChanging(players: seq<ClusterPlayer>, s: Lloyd, from: nat, to: nat)
    requires AssignmentFor(players, s.assignment, |s.centroids|) && |s.centroids| > 0
  {
    forall m: nat :: from <= m < to ==> Changes(players, s, m)
  }

  lemma {:induction false} MeasureFallsAlongRun(players: seq<ClusterPlayer>, s: Lloyd, i: nat, j: nat)
    requires AssignmentFor(players, s.assignment, |s.centroids|) && |s.centroids| > 0
    requires 1 <= i < j && KeepsChanging(players, s, i, j)
    ensures Below(players, After(players, s, j).assignment, After(players, s, i).assignment, |s.centroids|)
    decreases j
  {
    hide Round, OwnCost, IndexSum;
    assert Changes(players, s, j - 1);
    ChangingRoundDescends(players, s, j - 1);
    if i < j - 1 {
      MeasureFallsAlongRun(players, s, i, j - 1);
    }
  }

  /** While the loop keeps changing, no assignment vector comes back. */
  lemma NoAssignmentRepeats(players: seq<ClusterPlayer>, s: Lloyd, i: nat, j: nat)
    requires AssignmentFor(players, s.assignment, |s.centroids|) && |s.centroids| > 0
    requires 1 <= i < j && KeepsChanging(players, s, i, j)
    ensures After(players, s, i).assignment != After(players, s, j).assignment
  {
    MeasureFallsAlongRun(players, s, i, j);
  }

  // ----- Termination without the cap ---------------------------------------------

  ghost function Pow(k: nat, n: nat): nat {
    if n == 0 then 1 else Pow(k, n - 1) * k
  }

  /** An assignment vector read as a number in base k. */
  ghost function Code(a: seq<nat>, k: nat): nat {
    if a == [] then 0 else Code(a[..|a| - 1], k) * k + a[|a| - 1]
  }

  lemma {:induction false} CodeBound(a: seq<nat>, k: nat)
    requires forall i :: 0 <= i < |a| ==> a[i] < k
    ensures Code(a, k) < Pow(k, |a|)
  {
    if a != [] {
      var last := |a| - 1;
      CodeBound(a[..last], k);
      DigitBound(Code(a[..last], k), Pow(k, last), a[last], k);
    }
  }

  lemma DigitBound(high: nat, bound: nat, digit: nat, k: nat)
    requires high < bound && digit < k
    ensures high * k + digit < bound * k
  {
    var gap := bound - high - 1;
    NonNegativeProduct(gap, k);
    assert bound * k == high * k + k + gap * k;
  }

  lemma {:induction false} CodeInjective(a: seq<nat>, b: seq<nat>, k: nat)
    requires |a| == |b| && Code(a, k) == Code(b, k)
    requires forall i :: 0 <= i < |a| ==> a[i] < k && b[i] < k
    ensures a == b
  {
    if a != [] {
      var last := |a| - 1;
      DigitsUnique(Code(a[..last], k), a[last], Code(b[..last], k), b[last], k);
      CodeInjective(a[..last], b[..last], k);
      assert a == a[..last] + [a[last]] && b == b[..last] + [b[last]];
    }
  }

  lemma DigitsUnique(q: nat, r: nat, q': nat, r': nat, k: nat)
    requires r < k && r' < k && q * k + r == q' * k + r'
    ensures q == q' && r == r'
  {
    assert (q - q') * k == r' - r;
    SmallMultiple(q - q', k);
  }

  lemma {:induction false} Pigeonhole(codes: seq<nat>, bound: nat)
    requires forall i :: 0 <= i < |codes| ==> codes[i] < bound
    requires forall i, j :: 0 <= i < j < |codes| ==> codes[i] != codes[j]
    ensures |codes| <= bound
  {
    var values := set i | 0 <= i < |codes| :: codes[i];
    DistinctCount(codes);
    BoundedSet(values, bound);
  }

  lemma {:induction false} DistinctCount(codes: seq<nat>)
    requires forall i, j :: 0 <= i < j < |codes| ==> codes[i] != codes[j]
    ensures |set i | 0 <= i < |codes| :: codes[i]| == |codes|
  {
    var all := set i | 0 <= i < |codes| :: codes[i];
    if codes != [] {
      var last := |codes| - 1;
      var front := codes[..last];
      DistinctCount(front);
      var rest := set i | 0 <= i < |front| :: front[i];
      assert all == rest + {codes[last]} by {
        forall x | x in all ensures x in rest + {codes[last]} {
          var i :| 0 <= i < |codes| && codes[i] == x;
          if i < last { assert front[i] == x; }
        }
        forall x | x in rest ensures x in all {
          var i :| 0 <= i < |front| && front[i] == x;
          assert codes[i] == x;
        }
        assert codes[last] in all;
      }
      assert codes[last] !in rest;
    }
  }

  lemma {:induction false} BoundedSet(s: set<nat>, bound: nat)
    requires forall x :: x in s ==> x < bound
    ensures |s| <= bound
  {
    if s != {} {
      var x :| x in s;
      assert x < bound;
      BoundedSet(s - {bound - 1}, bound - 1);
    }
  }

  lemma {:induction false} UnsettledKeepsChanging(players: seq<ClusterPlayer>, s: Lloyd, budget: nat)
    requires AssignmentFor(players, s.assignment, |s.centroids|) && |s.centroids| > 0
    requires !Iterate(players, s, budget).settled
    ensures KeepsChanging(players, s, 0, budget)
    decreases budget
  {
    hide Round;
    if budget > 0 {
      var next := Round(players, s);
      UnsettledKeepsChanging(players, next, budget - 1);
      forall m: nat | m < budget
        ensures Changes(players, s, m)
      {
        if m > 0 {
          ShiftRun(players, s, m - 1);
          ShiftRun(players, s, m);
          assert Changes(players, next, m - 1);
        } else {
          assert After(players, s, 0) == s && After(players, s, 1) == next;
        }
      }
    }
  }

  lemma {:induction false} ShiftRun(players: seq<ClusterPlayer>, s: Lloyd, j: nat)
    requires AssignmentFor(players, s.assignment, |s.centroids|) && |s.centroids| > 0
    ensures After(players, Round(players, s), j) == After(players, s, j + 1)
  {
    hide Round;
    if j > 0 {
      ShiftRun(players, s, j - 1);
    } else {
      assert After(players, s, 1) == Round(players, After(players, s, 0));
    }
  }

  ghost predicate Vector(v: seq<nat>, n: nat, k: nat) {
    |v| == n && forall i :: 0 <= i < n ==> v[i] < k
  }

  lemma DistinctVectorsBounded(vs: seq<seq<nat>>, n: nat, k: nat)
    requires forall i :: 0 <= i < |vs| ==> Vector(vs[i], n, k)
    requires forall i, j :: 0 <= i < j < |vs| ==> vs[i] != vs[j]
    ensures |vs| <= Pow(k, n)
  {
    hide Pow, Code;
    var codes := seq(|vs|, i requires 0 <= i < |vs| => Code(vs[i], k));
    forall i | 0 <= i < |vs|
      ensures codes[i] < Pow(k, n)
    {
      CodeBound(vs[i], k);
    }
    forall i, j | 0 <= i < j < |vs|
      ensures codes[i] != codes[j]
    {
      if codes[i] == codes[j] {
        CodeInjective(vs[i], vs[j], k);
      }
    }
    Pigeonhole(codes, Pow(k, n));
  }

  /** More rounds than there are assignment vectors are never needed. */
  lemma SettlesWithoutCap(players: seq<ClusterPlayer>, s: Lloyd, budget: nat)
    requires AssignmentFor(players, s.assignment, |s.centroids|) && |s.centroids| > 0
    requires budget > Pow(|s.centroids|, |players|)
    ensures Iterate(players, s, budget).settled
  {
    hide Iterate, After, Pow;
    if !Iterate(players, s, budget).settled {
      UnsettledKeepsChanging(players, s, budget);
      var vs := seq(budget, i requires 0 <= i < budget => After(players, s, i + 1).assignment);
      forall i, j | 0 <= i < j < budget
        ensures vs[i] != vs[j]
      {
        NoAssignmentRepeats(players, s, i + 1, j + 1);
      }
      DistinctVectorsBounded(vs, |players|, |s.centroids|);
    }
  }

  /** Once settled, a larger budget changes nothing. */
  lemma {:induction false} BudgetIrrelevantOnceSettled(players: seq<ClusterPlayer>, s: Lloyd, budget: nat, more: nat)
    requires AssignmentFor(players, s.assignment, |s.centroids|) && |s.centroids| > 0
    requires budget <= more && Iterate(players, s, budget).settled
    ensures Iterate(players, s, more) == Iterate(players, s, budget)
    decreases budget
  {
    hide Round;
    var next := Round(players, s);
    if next.assignment != s.assignment {
      BudgetIrrelevantOnceSettled(players, next, budget - 1, more - 1);
    }
  }
}
