/** The best-response generator: every tie-optimal position of the next
    player to move, given the positions already taken. */
module Response {
  import opened Common
  import opened Voronoi

  /** Candidate continuations of one path: paths and their payoff vectors,
      entry by entry (the source's path_group and payoff_group). */
  datatype Group = Group(paths: seq<Path>, payoffs: seq<Payoffs>)

  /** Lower end of gap i of the sorted positions v. */
  function GapLow(v: seq<real>, i: nat): real
    requires i <= |v|
  {
    if i == 0 then 0.0 else v[i - 1]
  }

  /** Upper end of gap i of the sorted positions v. */
  function GapHigh(v: seq<real>, i: nat): real
    requires i <= |v|
  {
    if i == |v| then 1.0 else v[i]
  }

  /** An end gap is worth its full length, an interior gap half of it. */
  function GapValue(v: seq<real>, i: nat): real
    requires i <= |v|
  {
    if i == 0 || i == |v| then GapHigh(v, i) - GapLow(v, i)
    else (GapHigh(v, i) - GapLow(v, i)) / 2.0
  }

  function Gaps(v: seq<real>): (g: seq<real>)
    ensures |g| == |v| + 1 && forall i :: 0 <= i <= |v| ==> g[i] == GapValue(v, i)
  {
    seq(|v| + 1, i requires 0 <= i <= |v| => GapValue(v, i))
  }

  /** Where the new player goes in gap i: just below the lowest position,
      just above the highest, or at the midpoint of an interior gap. */
  function Placement(v: seq<real>, i: nat, e: real): real
    requires 1 <= |v| && i <= |v|
  {
    if i == 0 then v[0] - e
    else if i == |v| then v[|v| - 1] + e
    else (GapLow(v, i) + GapHigh(v, i)) / 2.0
  }

  /** The gaps whose value is within r of the best gap's value. */
  function Retained(p: Path, r: real): (idx: seq<nat>)
    requires |p| >= 1 && r >= 0.0
    ensures Ascending(idx, |p| + 1)
    ensures forall i :: 0 <= i <= |p| ==>
      (i in idx <==> Close(GapValue(SortedValues(p), i), Max(Gaps(SortedValues(p))), r))
  {
    var g := Gaps(SortedValues(p));
    Within(g, Max(g), r)
  }

  /** Each new position x appended to p. */
  function Extensions(p: Path, xs: seq<real>): (ps: seq<Path>)
    ensures |ps| == |xs|
    ensures forall j :: 0 <= j < |xs| ==> ps[j] == p + [xs[j]]
    ensures forall j :: 0 <= j < |xs| ==> |ps[j]| == |p| + 1 && ps[j][..|p|] == p
  {
    var ps := seq(|xs|, j requires 0 <= j < |xs| => p + [xs[j]]);
    assert forall j :: 0 <= j < |xs| ==> ps[j][..|p|] == p;
    ps
  }

  /** The payoff vector of every path, in order. */
  function PayoffsOf(ps: seq<Path>): (r: seq<Payoffs>)
    requires forall j :: 0 <= j < |ps| ==> |ps[j]| != 1
    ensures |r| == |ps|
  {
    seq(|ps|, j requires 0 <= j < |ps| => Payoff(ps[j]))
  }

  lemma ExtensionsSnoc(p: Path, xs: seq<real>, j: nat)
    requires j < |xs|
    ensures Extensions(p, xs[..j + 1]) == Extensions(p, xs[..j]) + [p + [xs[j]]]
  {
    assert xs[..j + 1] == xs[..j] + [xs[j]];
  }

  lemma PayoffsOfSnoc(ps: seq<Path>, q: Path)
    requires forall j :: 0 <= j < |ps| ==> |ps[j]| != 1
    requires |q| != 1
    ensures PayoffsOf(ps + [q]) == PayoffsOf(ps) + [Payoff(q)]
  {
    var a, b := PayoffsOf(ps + [q]), PayoffsOf(ps) + [Payoff(q)];
    forall j | 0 <= j < |ps| + 1 ensures a[j] == b[j] {
      if j < |ps| {
        assert (ps + [q])[j] == ps[j];
      }
    }
  }

  lemma TakeAll<T>(s: seq<T>)
    ensures s[..|s|] == s
  {
  }

  /** The placement of the new player for each retained gap. */
  function Positions(p: Path, e: real, r: real): (xs: seq<real>)
    requires |p| >= 1 && r >= 0.0
    ensures |xs| == |Retained(p, r)|
    ensures forall j :: 0 <= j < |xs| ==> xs[j] == Placement(SortedValues(p), Retained(p, r)[j], e)
  {
    var v, idx := SortedValues(p), Retained(p, r);
    seq(|idx|, j requires 0 <= j < |idx| => Placement(v, idx[j], e))
  }

  /** The continuations of p: one per retained gap, each p with the new
      player's position appended, and its payoff vector. */
  function BestResponses(p: Path, e: real, r: real): (g: Group)
    requires |p| >= 1 && r >= 0.0
    ensures g.paths == Extensions(p, Positions(p, e, r))
    ensures |g.paths| == |g.payoffs| == |Retained(p, r)|
  {
    var paths := Extensions(p, Positions(p, e, r));
    Group(paths, PayoffsOf(paths))
  }

  // ---------------------------------------------------------------------
  // The source's loops

  /** A gap end: the markers 'zero' and 'one' of the source, or a position. */
  datatype Bound = Zero | One | At(x: real)

  datatype Interval = Interval(lo: Bound, hi: Bound, length: real)

  /** The source's interval record for gap i of the sorted positions v. */
  function IntervalOf(v: seq<real>, i: nat): Interval
    requires i <= |v|
  {
    Interval(if i == 0 then Zero else At(v[i - 1]),
             if i == |v| then One else At(v[i]),
             GapValue(v, i))
  }

  /** The first loop: list every gap with its value, and track the largest
      value seen, starting from 0. */
  method GapIntervals(vals: seq<real>) returns (intervals: seq<Interval>, maxLen: real)
    requires |vals| >= 1
    ensures |intervals| == |vals| + 1
    ensures forall j :: 0 <= j <= |vals| ==> intervals[j] == IntervalOf(vals, j)
    ensures maxLen == Max(Gaps(vals))
  {
    var n := |vals|;
    ghost var gaps := Gaps(vals);
    intervals := [];
    maxLen := 0.0;
    ghost var arg := 0;
    for i := 0 to n + 1
      invariant |intervals| == i
      invariant forall j :: 0 <= j < i ==> intervals[j] == IntervalOf(vals, j)
      invariant 0.0 <= maxLen
      invariant forall j :: 0 <= j < i ==> gaps[j] <= maxLen
      invariant maxLen == 0.0 || (0 <= arg < i && gaps[arg] == maxLen)
    {
      var lobo := if i == 0 then 0.0 else vals[i - 1];
      var upbo := if i == n then 1.0 else vals[i];
      var length := if !(i == 0 || i == n) then (upbo - lobo) / 2.0 else upbo - lobo;
      var lo := if i == 0 then Zero else At(lobo);
      var hi := if i == n then One else At(upbo);
      assert length == gaps[i];
      intervals := intervals + [Interval(lo, hi, length)];
      if length > maxLen {
        maxLen := length;
        arg := i;
      }
    }
    GapsPositive(vals);
  }

  /** The second loop: the new position for each retained interval. */
  method Placements(vals: seq<real>, kept: seq<Interval>, ghost idx: seq<nat>, e: real)
    returns (pathList: seq<real>)
    requires |vals| >= 1 && |kept| == |idx|
    requires forall t :: 0 <= t < |idx| ==> idx[t] <= |vals| && kept[t] == IntervalOf(vals, idx[t])
    ensures |pathList| == |kept|
    ensures forall t :: 0 <= t < |kept| ==> pathList[t] == Placement(vals, idx[t], e)
  {
    var n := |vals|;
    pathList := [];
    for j := 0 to |kept|
      invariant |pathList| == j
      invariant forall t :: 0 <= t < j ==> pathList[t] == Placement(vals, idx[t], e)
    {
      var interval := kept[j];
      if interval.lo == Zero {
        pathList := pathList + [vals[0] - e];
      } else if interval.hi == One {
        pathList := pathList + [vals[n - 1] + e];
      } else {
        pathList := pathList + [(interval.lo.x + interval.hi.x) / 2.0];
      }
    }
  }

  /** The third loop: each new position gives a new path (the old one with
      the next player's entry added) and its payoffs. */
  method Extend(path: Path, pathList: seq<real>) returns (pathGroup: seq<Path>, payoffGroup: seq<Payoffs>)
    requires |path| >= 1
    ensures pathGroup == Extensions(path, pathList)
    ensures payoffGroup == PayoffsOf(pathGroup)
  {
    var letter := |path|;
    pathGroup := [];
    payoffGroup := [];
    for j := 0 to |pathList|
      invariant pathGroup == Extensions(path, pathList[..j])
      invariant payoffGroup == PayoffsOf(pathGroup)
    {
      var newdict := path + [pathList[j]];
      assert |newdict| == letter + 1;
      ExtensionsSnoc(path, pathList, j);
      PayoffsOfSnoc(pathGroup, newdict);
      pathGroup := pathGroup + [newdict];
      var payoff := PayoffCalculator(newdict);
      payoffGroup := payoffGroup + [payoff];
    }
    TakeAll(pathList);
  }

  /** optimal_path_calculator: sort the positions, score the gaps, keep
      those within r of the best, and build one continuation per kept gap. */
  method OptimalPathCalculator(path: Path, e: real, r: real) returns (g: Group)
    requires |path| >= 1 && r >= 0.0
    ensures g == BestResponses(path, e, r)
  {
    var vals := SortedValues(path);
    var intervals, maxLen := GapIntervals(vals);
    var lengths := seq(|intervals|, j requires 0 <= j < |intervals| => intervals[j].length);
    assert lengths == Gaps(vals);
    var idx := Within(lengths, maxLen, r);
    var kept := Pick(intervals, idx);
    var pathList := Placements(vals, kept, idx, e);
    assert pathList == Positions(path, e, r);
    var pathGroup, payoffGroup := Extend(path, pathList);
    g := Group(pathGroup, payoffGroup);
  }

  // ---------------------------------------------------------------------
  // Properties

  /** Between two positions that increase there is a step that increases. */
  lemma {:induction false} FindRise(v: seq<real>, a: nat, b: nat) returns (k: nat)
    requires a < b < |v| && v[a] < v[b]
    ensures a < k <= b && v[k - 1] < v[k]
    decreases b
  {
    if v[b - 1] < v[b] {
      k := b;
    } else {
      k := FindRise(v, a, b - 1);
    }
  }

  /** Some gap always has positive value (the gaps cover [0, 1]), so the
      source's running maximum, which starts at 0, is the maximum gap value. */
  lemma GapsPositive(v: seq<real>)
    requires |v| >= 1
    ensures Max(Gaps(v)) > 0.0
  {
    var g := Gaps(v);
    var n := |v|;
    if v[0] > 0.0 {
      assert g[0] > 0.0;
    } else if v[n - 1] < 1.0 {
      assert g[n] > 0.0;
    } else {
      var k := FindRise(v, 0, n - 1);
      assert g[k] > 0.0;
    }
  }

  /** With no negative tolerance at least one gap is retained. */
  lemma BestResponsesNonEmpty(p: Path, e: real, r: real)
    requires |p| >= 1 && r >= 0.0
    ensures |BestResponses(p, e, r).paths| > 0
  {
    var g := Gaps(SortedValues(p));
    var i :| 0 <= i < |g| && g[i] == Max(g);
    assert i in Retained(p, r);
  }

  /** No position lies strictly inside gap i of the sorted positions. */
  lemma OutsideGap(p: Path, k: nat, i: nat)
    requires k < |p| && 0 < i < |p|
    ensures p[k] <= SortedValues(p)[i - 1] || SortedValues(p)[i] <= p[k]
  {
    var a := RankOf(p, k);
    if a < i {
      SortedLe(p, a, i - 1);
    } else {
      SortedLe(p, i, a);
    }
  }

  /** Every position lies between the smallest and the largest. */
  lemma Extremes(p: Path, k: nat)
    requires k < |p|
    ensures SortedValues(p)[0] <= p[k] <= SortedValues(p)[|p| - 1]
  {
    var a := RankOf(p, k);
    SortedLe(p, 0, a);
    SortedLe(p, a, |p| - 1);
  }

  /** A newcomer below everyone owns [0, midpoint to the lowest position]. */
  lemma NewLowest(p: Path, x: real)
    requires |p| >= 1 && Distinct(p) && x < SortedValues(p)[0]
    ensures Payoff(p + [x])[|p|] == (x + SortedValues(p)[0]) / 2.0
  {
    var q, v, n := p + [x], SortedValues(p), |p|;
    var hi := SortedKeys(p)[0];
    forall k | 0 <= k < n ensures v[0] <= p[k] { Extremes(p, k); }
    assert forall k :: 0 <= k < n ==> q[k] == p[k];
    assert Distinct(q);
    PayoffLowest(q, n, hi);
  }

  /** A newcomer above everyone owns [midpoint to the highest position, 1]. */
  lemma NewHighest(p: Path, x: real)
    requires |p| >= 1 && Distinct(p) && SortedValues(p)[|p| - 1] < x
    ensures Payoff(p + [x])[|p|] == 1.0 - (SortedValues(p)[|p| - 1] + x) / 2.0
  {
    var q, v, n := p + [x], SortedValues(p), |p|;
    var lo := SortedKeys(p)[n - 1];
    forall k | 0 <= k < n ensures p[k] <= v[n - 1] { Extremes(p, k); }
    assert forall k :: 0 <= k < n ==> q[k] == p[k];
    assert Distinct(q);
    PayoffHighest(q, n, lo);
  }

  /** A newcomer strictly inside interior gap i owns the span between the
      midpoints to the gap's two ends. */
  lemma NewInterior(p: Path, i: nat, x: real)
    requires Distinct(p) && 0 < i < |p|
    requires SortedValues(p)[i - 1] < x < SortedValues(p)[i]
    ensures Payoff(p + [x])[|p|]
            == (x + SortedValues(p)[i]) / 2.0 - (SortedValues(p)[i - 1] + x) / 2.0
  {
    var q, v, n := p + [x], SortedValues(p), |p|;
    var ks := SortedKeys(p);
    var lo, hi := ks[i - 1], ks[i];
    forall k | 0 <= k < n ensures p[k] <= v[i - 1] || v[i] <= p[k] { OutsideGap(p, k, i); }
    assert forall k :: 0 <= k < n ==> q[k] == p[k];
    assert Distinct(q);
    PayoffInterior(q, n, lo, hi);
  }

  /** With distinct positions an interior placement lies strictly inside
      its gap. */
  lemma MidpointInside(p: Path, i: nat)
    requires Distinct(p) && 0 < i < |p|
    ensures SortedValues(p)[i - 1] < (SortedValues(p)[i - 1] + SortedValues(p)[i]) / 2.0 < SortedValues(p)[i]
  {
    DistinctIncreasing(p);
  }

  /** What the new player earns in each continuation: the value of its gap,
      less e/2 for an end gap (it stands e off the end position rather than
      on it). */
  lemma NewPlayerPayoff(p: Path, e: real, r: real, j: nat)
    requires |p| >= 1 && Distinct(p) && e > 0.0 && r >= 0.0 && j < |Retained(p, r)|
    ensures var i := Retained(p, r)[j];
      BestResponses(p, e, r).payoffs[j][|p|]
        == GapValue(SortedValues(p), i) - (if i == 0 || i == |p| then e / 2.0 else 0.0)
  {
    var i, x := Retained(p, r)[j], Positions(p, e, r)[j];
    var g := BestResponses(p, e, r);
    assert g.payoffs[j] == Payoff(p + [x]);
    PlacedPayoff(p, i, e, x);
  }

  /** The payoff of a newcomer placed in gap i by the source's rule. */
  lemma PlacedPayoff(p: Path, i: nat, e: real, x: real)
    requires |p| >= 1 && Distinct(p) && e > 0.0 && i <= |p|
    requires x == Placement(SortedValues(p), i, e)
    ensures Payoff(p + [x])[|p|]
      == GapValue(SortedValues(p), i) - (if i == 0 || i == |p| then e / 2.0 else 0.0)
  {
    if i == 0 {
      NewLowest(p, x);
    } else if i == |p| {
      NewHighest(p, x);
    } else {
      MidpointInside(p, i);
      NewInterior(p, i, x);
    }
  }
}
